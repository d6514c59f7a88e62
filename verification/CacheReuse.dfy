/** When a verdict that an earlier build recorded is still the toolchain's answer (the reuse rule of
    _build_verified_example_chunks in infra/build_chunks.py, and verification_cache_key). */
module CacheReuse {
  import opened Options
  import opened VerificationCache

  // ----- what a recorded verdict answers -----

  type Toolchain = (seq<string>, string) -> Verdict

  /** What ran before in the same directory, and the effective candidate. */
  datatype Query = Query(before: seq<string>, effective: string)

  function Answer(verify: Toolchain, q: Query): Verdict { verify(q.before, q.effective) }

  /** What the toolchain is asked when the i-th candidate is really verified. */
  function QueryAt<C>(page: Page<C>, i: nat): Query
    requires i < |page.plans|
  {
    Query(if page.shared then Ran(page.plans[..i]) else [], page.plans[i].effective)
  }

  /** What an entry records: a title, and the query it is the answer to. */
  datatype Recorded = Recorded(title: string, query: Query)

  type History = map<Key, Recorded>

  function CacheOf(h: History, verify: Toolchain): Cache {
    map key | key in h :: EntryOf(key, h[key].title, Answer(verify, h[key].query))
  }

  function With<C>(page: Page<C>, verify: Toolchain): Page<C> { page.(verify := verify) }

  lemma VerdictIsAnswer<C>(page: Page<C>, verify: Toolchain, i: nat)
    requires i < |page.plans|
    ensures VerdictAt(With(page, verify), i) == Answer(verify, QueryAt(page, i))
  {
  }

  // ----- every cache has a history -----

  /** The history after the first n candidates of a build. */
  function HistoryAfter<C>(page: Page<C>, h: History, verify: Toolchain, n: nat): History
    requires n <= |page.plans|
  {
    if n == 0 then h
    else
      var plan := page.plans[n - 1];
      var before := HistoryAfter(page, h, verify, n - 1);
      if !plan.skipped && Reused(With(page, verify), Some(CacheOf(h, verify)), plan) == None
      then before[KeyOf(page, plan) := Recorded(plan.title, QueryAt(page, n - 1))] else before
  }

  lemma {:induction false} BuildExtendsHistory<C>(page: Page<C>, h: History, verify: Toolchain, n: nat)
    requires n <= |page.plans|
    ensures Merge(CacheOf(h, verify), NewEntries(With(page, verify), Some(CacheOf(h, verify)), n))
            == CacheOf(HistoryAfter(page, h, verify, n), verify)
  {
    hide Reused, EntryOf, CacheOf, VerdictAt, Answer, QueryAt, Merge;
    var p, cache := With(page, verify), CacheOf(h, verify);
    if n == 0 {
      MergeOfNothing(cache);
    } else {
      BuildExtendsHistory(page, h, verify, n - 1);
      var plan := page.plans[n - 1];
      if !plan.skipped && Reused(p, Some(cache), plan) == None {
        var e := EntryOf(KeyOf(page, plan), plan.title, VerdictAt(p, n - 1));
        VerdictIsAnswer(page, verify, n - 1);
        WrittenEntryAgrees(KeyOf(page, plan), plan.title, VerdictAt(p, n - 1));
        assert NewEntries(p, Some(cache), n) == NewEntries(p, Some(cache), n - 1) + [e];
        OneMoreEntry(cache, NewEntries(p, Some(cache), n - 1), e);
        OneMoreQuery(HistoryAfter(page, h, verify, n - 1), verify, KeyOf(page, plan), Recorded(plan.title, QueryAt(page, n - 1)));
      } else {
        assert NewEntries(p, Some(cache), n) == NewEntries(p, Some(cache), n - 1);
      }
    }
  }

  lemma MergeOfNothing(cache: Cache)
    ensures Merge(cache, []) == cache
  {
  }

  lemma OneMoreEntry(cache: Cache, entries: seq<Entry>, e: Entry)
    ensures Merge(cache, entries + [e]) == Merge(cache, entries)[e.key := e]
  {
    assert (entries + [e])[..|entries|] == entries;
  }

  lemma OneMoreQuery(h: History, verify: Toolchain, key: Key, r: Recorded)
    ensures CacheOf(h[key := r], verify) == CacheOf(h, verify)[key := EntryOf(key, r.title, Answer(verify, r.query))]
  {
    hide EntryOf, Answer;
  }

  ghost predicate HasHistory(cache: Cache, verify: Toolchain) { exists h :: cache == CacheOf(h, verify) }

  /** Whatever builds came before, with one toolchain: each entry of the cache is its answer to some query. */
  lemma {:induction false} EveryCacheHasAHistory<C>(rounds: seq<Round<C>>, verify: Toolchain)
    requires forall r :: r in rounds ==> r.page.verify == verify
    ensures HasHistory(CacheAfterAll(rounds, map[]), verify)
  {
    hide CacheOf, NewEntries, CachedChunks, MissesOf, Records, NeedsVerification;
    if rounds == [] {
      EmptyHistory(verify);
    } else {
      var before, last := rounds[..|rounds| - 1], rounds[|rounds| - 1];
      EveryCacheHasAHistory(before, verify);
      var h :| CacheAfterAll(before, map[]) == CacheOf(h, verify);
      assert last in rounds && With(last.page, verify) == last.page;
      BuildExtendsHistory(last.page, h, verify, |last.page.plans|);
    }
  }

  lemma EmptyHistory(verify: Toolchain)
    ensures HasHistory(map[], verify)
  {
    assert CacheOf(map[], verify) == map[];
  }

  // ----- when reuse is exact -----

  predicate AllRecorded<C>(page: Page<C>, h: History) {
    forall plan :: plan in page.plans && !plan.skipped ==> KeyOf(page, plan) in h
  }

  /** Every entry for a candidate of the page is the answer to what the toolchain would be asked now. */
  predicate InPlace<C>(page: Page<C>, h: History) {
    forall i :: 0 <= i < |page.plans| && !page.plans[i].skipped && KeyOf(page, page.plans[i]) in h ==>
      h[KeyOf(page, page.plans[i])].query == QueryAt(page, i)
  }

  /** The entry of this candidate answers the query. */
  predicate AnsweredBy<C>(page: Page<C>, h: History, q: Query, j: nat) {
    && j < |page.plans| && !page.plans[j].skipped && KeyOf(page, page.plans[j]) in h
    && h[KeyOf(page, page.plans[j])].query == q
  }

  /** Whatever the toolchain would be asked now is answered by the entry of some candidate of the page. */
  ghost predicate Answered<C>(page: Page<C>, h: History) {
    forall i :: 0 <= i < |page.plans| && !page.plans[i].skipped ==> exists j :: AnsweredBy(page, h, QueryAt(page, i), j)
  }

  /** A build publishes the same with this cache and without one. */
  ghost predicate Transparent<C>(page: Page<C>, cache: Cache) {
    && Build(page, Some(cache), Ready).Built? && Build(page, None, Ready).Built?
    && Build(page, Some(cache), Ready).chunks == Build(page, None, Ready).chunks
  }

  ghost predicate TransparentWith<C>(page: Page<C>, h: History, verify: Toolchain) {
    Transparent(With(page, verify), CacheOf(h, verify))
  }

  /** What compiles is run exactly if the platform has a run step. */
  ghost predicate OfKind(verify: Toolchain, runs: bool) {
    forall before, effective ::
      verify(before, effective).compiled ==> (verify(before, effective).execution.Some? <==> runs)
  }

  /** A shared page publishes the same when nothing of it is reused, or when its entries answer, between them, all
      that would be asked; any other page when each entry answers what its own candidate would be asked. */
  ghost predicate SafeToReuse<C>(page: Page<C>, h: History) {
    if page.shared then !AllRecorded(page, h) || Answered(page, h) else InPlace(page, h)
  }

  /** The cache never shows, whatever the toolchain, exactly when the page is safe to reuse. The platform whose
      pages share a directory has no run step. */
  lemma ReuseIsExact<C>(page: Page<C>, h: History, runs: bool)
    requires (page.shared ==> !runs) && forall doc :: page.chunksOf(doc) != []
    ensures (forall verify :: OfKind(verify, runs) ==> TransparentWith(page, h, verify)) <==> SafeToReuse(page, h)
  {
    hide Build, CacheOf, QueryAt, OfKind;
    forall verify | OfKind(verify, runs) && SafeToReuse(page, h) ensures TransparentWith(page, h, verify) {
      if !page.shared {
        InPlaceIsTransparent(page, h, verify);
      } else if AllRecorded(page, h) {
        AnsweredIsTransparent(page, h, verify);
      } else {
        UnrecordedIsTransparent(page, h, verify);
      }
    }
    if !SafeToReuse(page, h) {
      var i := NotSafe(page, h);
      RefusalShows(page, h, runs, i);
      RefusingIsOfKind(QueryAt(page, i), runs);
      assert !TransparentWith(page, h, Refusing(QueryAt(page, i), runs));
    }
  }

  lemma InPlaceIsTransparent<C>(page: Page<C>, h: History, verify: Toolchain)
    requires InPlace(page, h)
    ensures TransparentWith(page, h, verify)
  {
    hide Build, EntryOf, Agrees, QueryAt, VerdictAt;
    var p, cache := With(page, verify), CacheOf(h, verify);
    forall i | 0 <= i < |page.plans| && !page.plans[i].skipped && KeyOf(page, page.plans[i]) in h
      ensures Agrees(cache[KeyOf(page, page.plans[i])], VerdictAt(p, i))
    {
      var key := KeyOf(page, page.plans[i]);
      VerdictIsAnswer(page, verify, i);
      WrittenEntryAgrees(key, h[key].title, Answer(verify, h[key].query));
    }
    CacheIsTransparent(p, cache);
  }

  lemma UnrecordedIsTransparent<C>(page: Page<C>, h: History, verify: Toolchain)
    requires page.shared && !AllRecorded(page, h)
    ensures TransparentWith(page, h, verify)
  {
    hide CachedChunks, Records, MissesOf, NewEntries, NeedsVerification, EntryOf;
    var p, cache := With(page, verify), CacheOf(h, verify);
    var plan :| plan in page.plans && !plan.skipped && KeyOf(page, plan) !in h;
    assert !Hits(p, Some(cache), plan);
    NothingReused(p, cache, |page.plans|);
  }

  lemma {:induction false} NothingReused<C>(page: Page<C>, cache: Cache, n: nat)
    requires page.shared && !AllHit(page, Some(cache)) && n <= |page.plans|
    ensures CachedChunks(page, Some(cache), n) == CachedChunks(page, None, n)
  {
    hide AllHit, Published, VerdictAt;
    if n > 0 { NothingReused(page, cache, n - 1); }
  }

  /** What compiles on a platform without a run step is published alike, whatever else the verdict says. */
  lemma CompiledIsPublished<C>(page: Page<C>, plan: Plan, v: Verdict, w: Verdict)
    requires v.compiled && w.compiled && v.execution == None && w.execution == None
    ensures Published(page, plan, true, RecordOf(v)) == Published(page, plan, true, RecordOf(w))
  {
  }

  /** On a shared page, entries that answer all that would be asked are all of compiled candidates, and then so is
      everything now, or none is reused. */
  lemma AnsweredIsTransparent<C>(page: Page<C>, h: History, verify: Toolchain)
    requires page.shared && AllRecorded(page, h) && Answered(page, h) && OfKind(verify, false)
    ensures TransparentWith(page, h, verify)
  {
    hide CachedChunks, Records, MissesOf, NewEntries, NeedsVerification, CacheOf, Answered, OfKind, AllRecorded;
    var p, cache := With(page, verify), CacheOf(h, verify);
    if AllHit(p, Some(cache)) {
      AllCompiled(page, h, verify, |page.plans|);
    } else {
      NothingReused(p, cache, |page.plans|);
    }
  }

  lemma {:induction false} AllCompiled<C>(page: Page<C>, h: History, verify: Toolchain, n: nat)
    requires page.shared && AllRecorded(page, h) && Answered(page, h) && OfKind(verify, false)
    requires AllHit(With(page, verify), Some(CacheOf(h, verify))) && n <= |page.plans|
    ensures CachedChunks(With(page, verify), Some(CacheOf(h, verify)), n) == CachedChunks(With(page, verify), None, n)
  {
    hide CacheOf, Answered, OfKind, AllRecorded, AllHit, ChunksAt;
    if n > 0 {
      AllCompiled(page, h, verify, n - 1);
      CompiledAt(page, h, verify, n - 1);
    }
  }

  lemma CompiledAt<C>(page: Page<C>, h: History, verify: Toolchain, i: nat)
    requires page.shared && AllRecorded(page, h) && Answered(page, h) && OfKind(verify, false)
    requires AllHit(With(page, verify), Some(CacheOf(h, verify))) && i < |page.plans|
    ensures var p := With(page, verify); ChunksAt(p, Some(CacheOf(h, verify)), i) == ChunksAt(p, None, i)
  {
    hide OfKind, QueryAt, EntryOf, RecordOf, RecordFromEntry, Published, VerdictAt, AllRecorded, Answered, AllHit, CacheOf, KeyOf, Reused;
    var p, cache, plan := With(page, verify), CacheOf(h, verify), page.plans[i];
    if !plan.skipped {
      var key := KeyOf(page, plan);
      SharedHit(page, h, verify, i);
      NoCacheNoReuse(p, plan);
      AnswerIsCompiled(page, h, verify, i);
      VerdictIsAnswer(page, verify, i);
      OnlyCompiled(verify, QueryAt(page, i));
      OnlyCompiled(verify, h[key].query);
      EntryShows(p, plan, key, h[key].title, Answer(verify, h[key].query));
      CompiledIsPublished(p, plan, Answer(verify, h[key].query), VerdictAt(p, i));
    }
  }

  /** The candidate's entry is reused, and of a candidate that compiled. */
  lemma SharedHit<C>(page: Page<C>, h: History, verify: Toolchain, i: nat)
    requires page.shared && AllRecorded(page, h) && AllHit(With(page, verify), Some(CacheOf(h, verify)))
    requires i < |page.plans| && !page.plans[i].skipped
    ensures var key := KeyOf(page, page.plans[i]);
            && key in h && Answer(verify, h[key].query).compiled
            && Reused(With(page, verify), Some(CacheOf(h, verify)), page.plans[i])
               == Some(EntryOf(key, h[key].title, Answer(verify, h[key].query)))
  {
    hide EntryOf, CacheOf;
    assert page.plans[i] in page.plans;
    assert Hits(With(page, verify), Some(CacheOf(h, verify)), page.plans[i]);
    HitIsCompiled(h, verify, KeyOf(page, page.plans[i]));
  }

  lemma AnswerIsCompiled<C>(page: Page<C>, h: History, verify: Toolchain, i: nat)
    requires page.shared && AllRecorded(page, h) && AllHit(With(page, verify), Some(CacheOf(h, verify))) && Answered(page, h)
    requires i < |page.plans| && !page.plans[i].skipped
    ensures Answer(verify, QueryAt(page, i)).compiled
  {
    hide AllHit, CacheOf, QueryAt, AllRecorded, Answer;
    var j: nat :| AnsweredBy(page, h, QueryAt(page, i), j);
    SharedHit(page, h, verify, j);
  }

  lemma HitIsCompiled(h: History, verify: Toolchain, key: Key)
    requires key in h && Lookup(Some(CacheOf(h, verify)), key).Some?
    ensures Answer(verify, h[key].query).compiled
    ensures Lookup(Some(CacheOf(h, verify)), key) == Some(EntryOf(key, h[key].title, Answer(verify, h[key].query)))
  {
    WrittenEntryAgrees(key, h[key].title, Answer(verify, h[key].query));
  }

  lemma OnlyCompiled(verify: Toolchain, q: Query)
    requires OfKind(verify, false) && Answer(verify, q).compiled
    ensures Answer(verify, q).execution == None
  {
    assert verify(q.before, q.effective).compiled;
  }

  /** A reused entry is published like its verdict. */
  lemma EntryShows<C>(page: Page<C>, plan: Plan, key: Key, title: string, v: Verdict)
    ensures Published(page, plan, true, RecordFromEntry(EntryOf(key, title, v))) == Published(page, plan, true, RecordOf(v))
  {
    hide Published, RecordOf, RecordFromEntry, EntryOf;
    WrittenEntryAgrees(key, title, v);
    ArtefactsDoNotShow(page, plan, true, RecordOf(v));
  }

  // ----- a toolchain that gives a misplaced verdict away -----

  /** Accepts everything but one query. */
  function Refusing(q: Query, runs: bool): Toolchain {
    (before, effective) => Verdict(Query(before, effective) != q, "", if runs then Some(Finished(0, 1, "", [])) else None, "", [])
  }

  lemma RefusingIsOfKind(q: Query, runs: bool)
    ensures OfKind(Refusing(q, runs), runs)
  {
  }

  /** What the i-th candidate would be asked is not what its entry answers, nor, on a shared page, what any entry
      does, and nothing keeps the entries from being reused. */
  ghost predicate Misplaced<C>(page: Page<C>, h: History, i: nat) {
    && i < |page.plans| && !page.plans[i].skipped && !AnsweredBy(page, h, QueryAt(page, i), i)
    && KeyOf(page, page.plans[i]) in h
    && (page.shared ==> AllRecorded(page, h) && forall j :: !AnsweredBy(page, h, QueryAt(page, i), j))
  }

  lemma NotSafe<C>(page: Page<C>, h: History) returns (i: nat)
    requires !SafeToReuse(page, h)
    ensures Misplaced(page, h, i)
  {
    hide QueryAt, KeyOf;
    if page.shared {
      i :| i < |page.plans| && !page.plans[i].skipped && !exists j :: AnsweredBy(page, h, QueryAt(page, i), j);
      assert page.plans[i] in page.plans;
    } else {
      i :| i < |page.plans| && !page.plans[i].skipped && KeyOf(page, page.plans[i]) in h
           && h[KeyOf(page, page.plans[i])].query != QueryAt(page, i);
    }
  }

  /** The entry of a candidate is reused exactly when its query is accepted, and when all are on a shared page. */
  lemma AcceptedIsReused<C>(page: Page<C>, h: History, runs: bool, i: nat, plan: Plan)
    requires Misplaced(page, h, i) && plan in page.plans && !plan.skipped
    ensures var verify, key := Refusing(QueryAt(page, i), runs), KeyOf(page, plan);
            Reused(With(page, verify), Some(CacheOf(h, verify)), plan) ==
              if key in h && h[key].query != QueryAt(page, i)
              then Some(EntryOf(key, h[key].title, Answer(verify, h[key].query))) else None
  {
    hide EntryOf, QueryAt;
    var verify := Refusing(QueryAt(page, i), runs);
    var p, cache := With(page, verify), CacheOf(h, verify);
    forall key | key in h ensures cache[key].verified == Bool(h[key].query != QueryAt(page, i)) {
      WrittenEntryAgrees(key, h[key].title, Answer(verify, h[key].query));
    }
    if page.shared {
      forall other | other in page.plans && !other.skipped ensures Hits(p, Some(cache), other) {
        var j :| 0 <= j < |page.plans| && page.plans[j] == other;
        assert !AnsweredBy(page, h, QueryAt(page, i), j);
      }
      assert AllHit(p, Some(cache));
    }
  }

  /** One candidate publishes at least as many chunks with the cache, and the misplaced one publishes more. */
  lemma ReuseShowsMore<C>(page: Page<C>, h: History, runs: bool, i: nat, j: nat)
    requires Misplaced(page, h, i) && j < |page.plans| && forall doc :: page.chunksOf(doc) != []
    ensures var verify := Refusing(QueryAt(page, i), runs);
            var p, cache := With(page, verify), CacheOf(h, verify);
            |ChunksAt(p, Some(cache), j)| >= |ChunksAt(p, None, j)| + if i == j then 1 else 0
  {
    hide CacheOf, EntryOf, QueryAt, Reused, RecordOf, RecordFromEntry, VerdictAt, Published, KeyOf;
    var q := QueryAt(page, i);
    var verify := Refusing(q, runs);
    var p, plan := With(page, verify), page.plans[j];
    var key := KeyOf(page, plan);
    if !plan.skipped {
      AcceptedIsReused(page, h, runs, i, plan);
      NoCacheNoReuse(p, plan);
      VerdictIsAnswer(page, verify, j);
      if key in h && h[key].query != q {
        EntryShows(p, plan, key, h[key].title, Answer(verify, h[key].query));
        AnswerShows(p, plan, q, runs, h[key].query);
        AnswerShows(p, plan, q, runs, QueryAt(page, j));
      }
    }
  }

  /** An accepted candidate is published, in the same way whatever was asked, and the refused one is not. */
  lemma AnswerShows<C>(page: Page<C>, plan: Plan, q: Query, runs: bool, asked: Query)
    requires forall doc :: page.chunksOf(doc) != []
    ensures var v := Answer(Refusing(q, runs), asked);
            && v.compiled == (asked != q)
            && (asked != q ==> Published(page, plan, true, RecordOf(v)) == Pieces(page, DocOf(page, plan, RecordOf(v))) != [])
            && (asked != q ==> RecordOf(v) == RecordOf(Verdict(true, "", v.execution, "", [])))
            && (asked == q ==> Published(page, plan, false, RecordOf(v)) == [])
            && v.execution == if runs then Some(Finished(0, 1, "", [])) else None
  {
  }

  lemma NoCacheNoReuse<C>(page: Page<C>, plan: Plan)
    ensures Reused(page, None, plan) == None
  {
  }

  lemma {:induction false} ReusePublishesMore<C>(page: Page<C>, h: History, runs: bool, i: nat, n: nat)
    requires Misplaced(page, h, i) && n <= |page.plans| && forall doc :: page.chunksOf(doc) != []
    ensures var verify := Refusing(QueryAt(page, i), runs);
            var p, cache := With(page, verify), CacheOf(h, verify);
            |CachedChunks(p, Some(cache), n)| >= |CachedChunks(p, None, n)| + if i < n then 1 else 0
  {
    hide CacheOf, QueryAt, ChunksAt, Misplaced, Refusing;
    if n > 0 {
      ReusePublishesMore(page, h, runs, i, n - 1);
      ReuseShowsMore(page, h, runs, i, n - 1);
    }
  }

  lemma RefusalShows<C>(page: Page<C>, h: History, runs: bool, i: nat)
    requires Misplaced(page, h, i) && i < |page.plans| && forall doc :: page.chunksOf(doc) != []
    ensures !TransparentWith(page, h, Refusing(QueryAt(page, i), runs))
  {
    hide CacheOf, QueryAt, Misplaced, Refusing, CachedChunks, Records, MissesOf, NewEntries, NeedsVerification;
    ReusePublishesMore(page, h, runs, i, |page.plans|);
  }

  // ----- one page recorded, another one built -----

  /** What a build of the page from an empty cache records: under each key its last query. */
  function Recording<C>(page: Page<C>, n: nat): History
    requires n <= |page.plans|
  {
    if n == 0 then map[]
    else
      var plan := page.plans[n - 1];
      if plan.skipped then Recording(page, n - 1)
      else Recording(page, n - 1)[KeyOf(page, plan) := Recorded(plan.title, QueryAt(page, n - 1))]
  }

  lemma {:induction false} FirstBuildRecords<C>(page: Page<C>, verify: Toolchain, n: nat)
    requires n <= |page.plans|
    ensures HistoryAfter(page, map[], verify, n) == Recording(page, n)
  {
    hide QueryAt;
    if n > 0 {
      FirstBuildRecords(page, verify, n - 1);
      assert CacheOf(map[], verify) == map[];
    }
  }

  lemma CacheAfterFirstBuild<C>(page: Page<C>, verify: Toolchain)
    ensures CacheAfter(With(page, verify), map[], Ready) == CacheOf(Recording(page, |page.plans|), verify)
  {
    hide NewEntries, CachedChunks, MissesOf, Records, NeedsVerification, HistoryAfter, Recording, Merge;
    assert CacheOf(map[], verify) == map[];
    FirstBuildRecords(page, verify, |page.plans|);
    BuildExtendsHistory(page, map[], verify, |page.plans|);
  }

  /** The page `now`, built with the cache that a build of `recorded` left behind. */
  ghost predicate TransparentAfter<C>(recorded: Page<C>, now: Page<C>, verify: Toolchain) {
    Transparent(With(now, verify), CacheAfter(With(recorded, verify), map[], Ready))
  }

  /** Whatever the toolchain, `now` publishes what it would without the cache exactly when it is safe to reuse
      what `recorded` left behind. */
  lemma RebuildIsExact<C>(recorded: Page<C>, now: Page<C>, runs: bool)
    requires (now.shared ==> !runs) && forall doc :: now.chunksOf(doc) != []
    ensures (forall verify :: OfKind(verify, runs) ==> TransparentAfter(recorded, now, verify)) <==>
            SafeToReuse(now, Recording(recorded, |recorded.plans|))
  {
    hide Transparent, CacheAfter, CacheOf, Recording, SafeToReuse, OfKind;
    var h := Recording(recorded, |recorded.plans|);
    forall verify ensures TransparentAfter(recorded, now, verify) <==> TransparentWith(now, h, verify) {
      CacheAfterFirstBuild(recorded, verify);
    }
    ReuseIsExact(now, h, runs);
  }

  // ----- shared pages -----

  /** What an entry and a query see of an active candidate. */
  datatype Place = Place(key: Key, effective: string)

  /** The active candidates of the first n, in order. */
  function Places<C>(page: Page<C>, n: nat): seq<Place>
    requires n <= |page.plans|
  {
    if n == 0 then []
    else
      var plan := page.plans[n - 1];
      Places(page, n - 1) + if plan.skipped then [] else [Place(KeyOf(page, plan), plan.effective)]
  }

  function AllPlaces<C>(page: Page<C>): seq<Place> { Places(page, |page.plans|) }

  function Texts(places: seq<Place>): seq<string> { seq(|places|, m requires 0 <= m < |places| => places[m].effective) }

  /** No two active candidates of the page have the same key. */
  predicate DistinctKeys<C>(page: Page<C>) {
    forall a, b :: 0 <= a < b < |AllPlaces(page)| ==> AllPlaces(page)[a].key != AllPlaces(page)[b].key
  }

  lemma {:induction false} RanIsTexts<C>(page: Page<C>, n: nat)
    requires n <= |page.plans|
    ensures Ran(page.plans[..n]) == Texts(Places(page, n))
  {
    if n > 0 {
      RanIsTexts(page, n - 1);
      assert page.plans[..n][..n - 1] == page.plans[..n - 1];
    }
  }

  lemma {:induction false} PlacesArePrefix<C>(page: Page<C>, m: nat, n: nat)
    requires m <= n <= |page.plans|
    ensures Places(page, m) <= Places(page, n)
  {
    if m < n { PlacesArePrefix(page, m, n - 1); }
  }

  /** The place of an active candidate among them, and what the toolchain is asked there. */
  lemma PlaceOf<C>(page: Page<C>, i: nat) returns (m: nat)
    requires page.shared && i < |page.plans| && !page.plans[i].skipped
    ensures m < |AllPlaces(page)| && AllPlaces(page)[m] == Place(KeyOf(page, page.plans[i]), page.plans[i].effective)
    ensures QueryAt(page, i) == QueryOf(AllPlaces(page), m)
  {
    hide KeyOf;
    m := |Places(page, i)|;
    PlacesArePrefix(page, i + 1, |page.plans|);
    RanIsTexts(page, i);
    assert Places(page, i) == AllPlaces(page)[..m];
  }

  function QueryOf(places: seq<Place>, m: nat): Query
    requires m < |places|
  {
    Query(Texts(places[..m]), places[m].effective)
  }

  /** And back. */
  lemma {:induction false} PlaceFrom<C>(page: Page<C>, n: nat, m: nat) returns (i: nat)
    requires n <= |page.plans| && m < |Places(page, n)|
    ensures i < n && !page.plans[i].skipped && |Places(page, i)| == m
    ensures Places(page, n)[m] == Place(KeyOf(page, page.plans[i]), page.plans[i].effective)
  {
    hide KeyOf;
    if m < |Places(page, n - 1)| { i := PlaceFrom(page, n - 1, m); } else { i := n - 1; }
  }

  /** With distinct keys, each active candidate is recorded at its place. */
  lemma {:induction false} RecordedAt<C>(page: Page<C>, n: nat, m: nat)
    requires page.shared && DistinctKeys(page) && n <= |page.plans| && m < |Places(page, n)|
    ensures var places, h := Places(page, n), Recording(page, n);
            places[m].key in h && h[places[m].key].query == QueryOf(places, m)
  {
    hide KeyOf, Texts, AllPlaces, Ran, DistinctKeys;
    var plan := page.plans[n - 1];
    var before, places := Places(page, n - 1), Places(page, n);
    if m < |before| {
      RecordedAt(page, n - 1, m);
      assert before[..m] == places[..m] && before[m] == places[m];
      if !plan.skipped { KeysDiffer(page, n, m, |before|); }
    } else {
      RanIsTexts(page, n - 1);
      assert places[..m] == before;
    }
  }

  lemma KeysDiffer<C>(page: Page<C>, n: nat, a: nat, b: nat)
    requires DistinctKeys(page) && n <= |page.plans| && a < b < |Places(page, n)|
    ensures Places(page, n)[a].key != Places(page, n)[b].key
  {
    hide Places;
    PlacesArePrefix(page, n, |page.plans|);
    assert AllPlaces(page)[a] == Places(page, n)[a] && AllPlaces(page)[b] == Places(page, n)[b];
  }

  /** And nothing else is. */
  lemma {:induction false} RecordedFrom<C>(page: Page<C>, n: nat, key: Key) returns (m: nat)
    requires n <= |page.plans| && key in Recording(page, n)
    ensures m < |Places(page, n)| && Places(page, n)[m].key == key
  {
    hide KeyOf, QueryAt;
    if key in Recording(page, n - 1) {
      m := RecordedFrom(page, n - 1, key);
    } else {
      m := |Places(page, n - 1)|;
    }
  }

  function Keys(places: seq<Place>): set<Key> { set p | p in places :: p.key }

  /** The active candidates, by what the toolchain sees, are the first ones of those recorded, under the same
      keys. */
  predicate BeginsLike<C>(now: Page<C>, recorded: Page<C>) {
    var a, b := AllPlaces(now), AllPlaces(recorded);
    Texts(a) <= Texts(b) && Keys(a) == Keys(b[..|a|])
  }

  lemma BeginningIsAnswered<C>(recorded: Page<C>, now: Page<C>)
    requires recorded.shared && now.shared && DistinctKeys(recorded) && BeginsLike(now, recorded)
    ensures Answered(now, Recording(recorded, |recorded.plans|))
  {
    hide DistinctKeys, Recording, Places, QueryAt, KeyOf;
    var h, a, b := Recording(recorded, |recorded.plans|), AllPlaces(now), AllPlaces(recorded);
    forall i | 0 <= i < |now.plans| && !now.plans[i].skipped ensures exists j :: AnsweredBy(now, h, QueryAt(now, i), j) {
      var m := PlaceOf(now, i);
      assert b[..|a|][m] == b[m] && b[m].key in Keys(b[..|a|]);
      var n :| 0 <= n < |a| && a[n].key == b[m].key;
      var j := PlaceFrom(now, |now.plans|, n);
      RecordedAt(recorded, |recorded.plans|, m);
      SameTexts(a, b, m);
      assert AnsweredBy(now, h, QueryAt(now, i), j);
    }
  }

  lemma SameTexts(a: seq<Place>, b: seq<Place>, m: nat)
    requires Texts(a) <= Texts(b) && m < |a|
    ensures m < |b| && QueryOf(a, m) == QueryOf(b, m)
  {
    assert Texts(a)[m] == Texts(b)[m];
    forall k | 0 <= k < m ensures a[..m][k].effective == b[..m][k].effective {
      assert Texts(a)[k] == Texts(b)[k];
    }
    assert Texts(a[..m]) == Texts(b[..m]);
  }

  /** A place of the page now, and the recorded place whose entry answers it. */
  lemma AnswerIsAtPlace<C>(recorded: Page<C>, now: Page<C>, m: nat)
    requires recorded.shared && now.shared && DistinctKeys(recorded) && m < |AllPlaces(now)|
    requires Answered(now, Recording(recorded, |recorded.plans|))
    ensures var a, b := AllPlaces(now), AllPlaces(recorded);
            m < |b| && QueryOf(a, m) == QueryOf(b, m) && b[m].key in Keys(a)
  {
    hide DistinctKeys, Recording, Places, QueryAt, KeyOf, QueryOf, Keys;
    var h, b := Recording(recorded, |recorded.plans|), AllPlaces(recorded);
    var i := AskedAtPlace(now, m);
    var j: nat :| AnsweredBy(now, h, QueryAt(now, i), j);
    var key := KeyOf(now, now.plans[j]);
    KeyIsThere(now, j);
    var k := RecordedFrom(recorded, |recorded.plans|, key);
    RecordedAt(recorded, |recorded.plans|, k);
    PlacesBefore(b, k);
    PlacesBefore(AllPlaces(now), m);
  }

  lemma PlacesBefore(places: seq<Place>, m: nat)
    requires m < |places|
    ensures |QueryOf(places, m).before| == m
  {
  }

  lemma KeyIsThere<C>(page: Page<C>, j: nat)
    requires page.shared && j < |page.plans| && !page.plans[j].skipped
    ensures KeyOf(page, page.plans[j]) in Keys(AllPlaces(page))
  {
    hide KeyOf, QueryAt;
    var n := PlaceOf(page, j);
    assert AllPlaces(page)[n] in AllPlaces(page);
  }

  /** The candidate at the m-th place, and what is asked of it. */
  lemma AskedAtPlace<C>(page: Page<C>, m: nat) returns (i: nat)
    requires page.shared && m < |AllPlaces(page)|
    ensures i < |page.plans| && !page.plans[i].skipped && QueryAt(page, i) == QueryOf(AllPlaces(page), m)
  {
    hide KeyOf, Places;
    i := PlaceFrom(page, |page.plans|, m);
    RanIsTexts(page, i);
    PlacesArePrefix(page, i, |page.plans|);
    assert Places(page, i) == AllPlaces(page)[..m];
  }

  lemma {:induction false} KeysAtMost(places: seq<Place>)
    ensures |Keys(places)| <= |places|
    ensures (forall a, b :: 0 <= a < b < |places| ==> places[a].key != places[b].key) ==> |Keys(places)| == |places|
  {
    if places != [] {
      var init, last := places[..|places| - 1], places[|places| - 1];
      KeysAtMost(init);
      assert places == init + [last];
      assert Keys(places) == Keys(init) + {last.key};
    }
  }

  lemma SmallerIsEqual(small: set<Key>, big: set<Key>)
    requires small <= big && |big| <= |small|
    ensures small == big
  {
    assert big == small + (big - small);
    assert |big| == |small| + |big - small|;
  }

  lemma AnsweredBegins<C>(recorded: Page<C>, now: Page<C>)
    requires recorded.shared && now.shared && DistinctKeys(recorded)
    requires Answered(now, Recording(recorded, |recorded.plans|))
    ensures BeginsLike(now, recorded)
  {
    hide Recording, AllPlaces, Answered, Keys;
    var a, b := AllPlaces(now), AllPlaces(recorded);
    forall m: nat | m < |a| ensures m < |b| && QueryOf(a, m) == QueryOf(b, m) && b[m].key in Keys(a) {
      AnswerIsAtPlace(recorded, now, m);
    }
    if |a| > 0 { AnswerIsAtPlace(recorded, now, |a| - 1); }
    assert |a| <= |b|;
    forall m | 0 <= m < |a| ensures Texts(a)[m] == Texts(b)[m] { assert QueryOf(a, m) == QueryOf(b, m); }
    KeysAtMost(a);
    KeysAtMost(b[..|a|]);
    assert Keys(b[..|a|]) <= Keys(a) by { KeysAreFound(b[..|a|], Keys(a)); }
    SmallerIsEqual(Keys(b[..|a|]), Keys(a));
  }

  lemma KeysAreFound(places: seq<Place>, keys: set<Key>)
    requires forall m :: 0 <= m < |places| ==> places[m].key in keys
    ensures Keys(places) <= keys
  {
  }

  /** Every active candidate has the key of one that was recorded. */
  predicate AllKnown<C>(recorded: Page<C>, now: Page<C>) {
    forall a :: a in AllPlaces(now) ==> exists b :: b in AllPlaces(recorded) && b.key == a.key
  }

  lemma KnownIsRecorded<C>(recorded: Page<C>, now: Page<C>)
    requires recorded.shared && now.shared && DistinctKeys(recorded)
    ensures AllKnown(recorded, now) <==> AllRecorded(now, Recording(recorded, |recorded.plans|))
  {
    hide Places, DistinctKeys, Recording, KeyOf, QueryAt;
    var h := Recording(recorded, |recorded.plans|);
    forall key ensures key in h <==> exists b :: b in AllPlaces(recorded) && b.key == key {
      if key in h {
        var m := RecordedFrom(recorded, |recorded.plans|, key);
        assert AllPlaces(recorded)[m] in AllPlaces(recorded);
      }
      forall m | 0 <= m < |AllPlaces(recorded)| ensures AllPlaces(recorded)[m].key in h {
        RecordedAt(recorded, |recorded.plans|, m);
      }
    }
    if AllKnown(recorded, now) {
      forall plan | plan in now.plans && !plan.skipped ensures KeyOf(now, plan) in h {
        var i :| 0 <= i < |now.plans| && now.plans[i] == plan;
        var m := PlaceOf(now, i);
        assert AllPlaces(now)[m] in AllPlaces(now);
      }
    }
    if AllRecorded(now, h) {
      forall a | a in AllPlaces(now) ensures a.key in h {
        var m :| 0 <= m < |AllPlaces(now)| && AllPlaces(now)[m] == a;
        var i := PlaceFrom(now, |now.plans|, m);
        assert now.plans[i] in now.plans;
      }
    }
  }

  /** A rebuilt shared page publishes what it would without the cache, whatever the toolchain, exactly when its
      active candidates are the first ones of those recorded, in the same order and under the same keys, or some
      candidate was not recorded, so that none is reused. */
  lemma SharedReuseIsExact<C>(recorded: Page<C>, now: Page<C>)
    requires recorded.shared && now.shared && DistinctKeys(recorded) && forall doc :: now.chunksOf(doc) != []
    ensures (forall verify :: OfKind(verify, false) ==> TransparentAfter(recorded, now, verify)) <==>
            !AllKnown(recorded, now) || BeginsLike(now, recorded)
  {
    hide BeginsLike, DistinctKeys, Recording, AllKnown, AllRecorded, Answered, TransparentAfter, OfKind;
    RebuildIsExact(recorded, now, false);
    KnownIsRecorded(recorded, now);
    if Answered(now, Recording(recorded, |recorded.plans|)) { AnsweredBegins(recorded, now); }
    if BeginsLike(now, recorded) { BeginningIsAnswered(recorded, now); }
  }
}
