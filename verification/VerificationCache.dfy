/** Verified examples and the verification cache (infra/build_chunks.py, with the run records of
    src/foss_mcp/indexing/example_verifier.py): a recorded verdict is reused instead of the toolchain. The
    toolchain and the chunker are parameters of a page. */
module VerificationCache {
  import opened Options
  import opened PyText

  // ----- what one run reports -----

  datatype RuntimeRecord = RuntimeRecord(
    compiled: bool, ran: Option<bool>, exitCode: Option<int>, produced: Option<int>, error: string,
    artefacts: seq<string>)

  datatype Status = NotCompiled | Unknown | RanOk | Failed | NoOutput

  function Classify(r: RuntimeRecord): Status {
    if !r.compiled then NotCompiled
    else if r.ran == None then Unknown
    else if r.ran == Some(false) || r.exitCode !in {None, Some(0)} || (r.exitCode == None && r.error != "") then Failed
    else if r.produced in {None, Some(0)} then NoOutput
    else RanOk
  }

  /** Each status exactly, for any record, a partly unknown one of an old cache too. */
  lemma ClassifyIsExact(r: RuntimeRecord)
    ensures var tried := r.compiled && r.ran.Some?;
            var wentWell := r.ran == Some(true) && (r.exitCode == Some(0) || (r.exitCode == None && r.error == ""));
            var gave := r.produced.Some? && r.produced.value != 0;
            && (Classify(r) == NotCompiled <==> !r.compiled)
            && (Classify(r) == Unknown <==> r.compiled && !tried)
            && (Classify(r) == RanOk <==> tried && wentWell && gave)
            && (Classify(r) == NoOutput <==> tried && wentWell && !gave)
            && (Classify(r) == Failed <==> tried && !wentWell)
  {
    if r.ran.Some? {
      var b := r.ran.value;
      assert r.ran == Some(b);
      if b { assert r.ran == Some(true); } else { assert r.ran == Some(false); }
    }
    assert r.exitCode.Some? ==> (r.exitCode == Some(0) <==> r.exitCode.value == 0);
    assert r.produced.Some? ==> (r.produced == Some(0) <==> r.produced.value == 0);
  }

  /** With RUNTIME_RUN_REQUIRED_FOR_VERIFIED on, as it is. */
  predicate CountsAsVerified(s: Status) { s == RanOk || s == Unknown }

  /** How the run of a compiled candidate ended: not started, or with an exit code. */
  datatype Execution = NotStarted(reason: string) | Finished(exitCode: int, produced: nat, error: string, artefacts: seq<string>)

  /** The toolchain's answer for one candidate; no execution when the platform has no run step. The status and
      the fixture files it names are only reported. */
  datatype Verdict = Verdict(
    compiled: bool, output: string, execution: Option<Execution>, status: string, fixtures: seq<string>)

  function RecordOf(v: Verdict): RuntimeRecord {
    if !v.compiled then RuntimeRecord(false, None, None, None, "", [])
    else match v.execution
      case None => RuntimeRecord(true, None, None, None, "", [])
      case Some(NotStarted(reason)) => RuntimeRecord(true, Some(false), None, None, reason, [])
      case Some(Finished(code, produced, error, artefacts)) =>
        RuntimeRecord(true, Some(true), Some(code), Some(produced), error, artefacts)
  }

  // ----- cache entries -----

  /** A JSON value of an entry, or its absence. */
  datatype Json = Absent | Bool(flag: bool) | Int(n: int) | Text(s: string) | Other

  datatype Key = Key(provenance: string, codeSha: string, commit: string, platform: string, toolchain: string)

  datatype Entry = Entry(
    key: Key, title: string, output: string, verified: Json,
    compiled: Json, ran: Json, exitCode: Json, produced: Json, error: Json)

  function RecordFromEntry(e: Entry): RuntimeRecord {
    RuntimeRecord(
      (if e.compiled == Absent then e.verified else e.compiled) == Bool(true),
      if e.ran.Bool? then Some(e.ran.flag) else None,
      if e.exitCode.Int? then Some(e.exitCode.n) else None,
      if e.produced.Int? then Some(e.produced.n) else None,
      if e.error.Text? then e.error.s else "", [])
  }

  const OUTPUT_TAIL := 2000

  function Tail(output: string): string {
    if |output| <= OUTPUT_TAIL then output else output[|output| - OUTPUT_TAIL..]
  }

  function IntField(n: Option<int>): Json { if n.Some? then Int(n.value) else Absent }

  /** The entry written for a verdict; a fact that is unknown is left out, and so are the run fields of a
      candidate that was never run. */
  function EntryOf(key: Key, title: string, v: Verdict): Entry {
    var r := RecordOf(v);
    var e := Entry(key, title, Tail(v.output), Bool(v.compiled), Absent, Absent, Absent, Absent, Absent);
    if r.ran == None then e
    else e.(compiled := Bool(r.compiled), ran := Bool(r.ran.value), exitCode := IntField(r.exitCode),
            produced := IntField(r.produced), error := if r.error == "" then Absent else Text(r.error))
  }

  // ----- the page -----

  /** Everything decided about one candidate before any toolchain runs; codeSha is the hash of the text its
      verdict is keyed on. */
  datatype Plan = Plan(
    provenance: string, title: string, codeSha: string, skipped: bool,
    effective: string, program: string, harness: string, description: string, namesUnimplemented: bool)

  datatype Doc = Doc(
    title: string, authored: bool, runtime: RuntimeLines, harness: string, description: string, program: string)

  datatype RuntimeLines = NoLines | Lines(status: Status, produced: Option<int>, error: string)

  /** One page: its plans in document order, what its keys share, whether its candidates share one working
      directory, and the parameters. The verifier gets the effective candidate and its directory, that is, the
      effective candidates that ran there before. The chunker is `chunksOf`, and `whole` is a chunk with the whole body of the document instead
      of its own text. */
  datatype Page<!C> = Page(
    plans: seq<Plan>, commit: string, platform: string, toolchain: string, shared: bool,
    verify: (seq<string>, string) -> Verdict, errorLine: string -> string, chunksOf: Doc -> seq<C>, whole: (C, Doc) -> C)

  function KeyOf<C>(page: Page<C>, plan: Plan): Key {
    Key(plan.provenance, plan.codeSha, page.commit, page.platform, page.toolchain)
  }

  function LinesOf<C>(page: Page<C>, r: RuntimeRecord): RuntimeLines {
    var s := Classify(r);
    if s == NotCompiled || s == Unknown then NoLines
    else Lines(s, r.produced, if s == Failed then page.errorLine(r.error) else "")
  }

  function DocOf<C>(page: Page<C>, plan: Plan, r: RuntimeRecord): Doc {
    Doc(plan.title, plan.provenance == "authored", LinesOf(page, r), plan.harness, plan.description, plan.program)
  }

  /** The chunks of one document: an authored example is one chunk, whatever the chunker makes of it. */
  function Pieces<C>(page: Page<C>, doc: Doc): seq<C> {
    var chunks := page.chunksOf(doc);
    if doc.authored && |chunks| > 1 then [page.whole(chunks[0], doc)] else chunks
  }

  /** The candidate compiled and gave nothing, in a format the page says is missing. */
  predicate Rejected(plan: Plan, compiled: bool, r: RuntimeRecord) {
    compiled && Classify(r) == NoOutput && plan.namesUnimplemented
  }

  /** What is published of one candidate. */
  function Published<C>(page: Page<C>, plan: Plan, compiled: bool, r: RuntimeRecord): seq<C> {
    var verified := CountsAsVerified(Classify(r));
    if compiled && !Rejected(plan, compiled, r) && (verified || plan.provenance != "authored")
    then Pieces(page, DocOf(page, plan, r)) else []
  }

  /** What the verifier is handed of the candidates, in document order, when all of them are verified. */
  function Ran(plans: seq<Plan>): seq<string> {
    if plans == [] then []
    else
      var last := plans[|plans| - 1];
      Ran(plans[..|plans| - 1]) + if last.skipped then [] else [last.effective]
  }

  /** The toolchain's answer when the i-th candidate is really verified: in a shared directory all active
      candidates before it ran there. */
  function VerdictAt<C>(page: Page<C>, i: nat): Verdict
    requires i < |page.plans|
  {
    page.verify(if page.shared then Ran(page.plans[..i]) else [], page.plans[i].effective)
  }

  /** The chunks of the first n candidates with no cache at all. */
  function FreshChunks<C>(page: Page<C>, n: nat): seq<C>
    requires n <= |page.plans|
  {
    if n == 0 then []
    else
      var plan := page.plans[n - 1];
      FreshChunks(page, n - 1)
      + if plan.skipped then [] else Published(page, plan, VerdictAt(page, n - 1).compiled, RecordOf(VerdictAt(page, n - 1)))
  }

  // ----- the cache at work -----

  type Cache = map<Key, Entry>

  /** A hit is an entry with `verified: true` under the identical key. */
  function Lookup(cache: Option<Cache>, key: Key): Option<Entry> {
    if cache.Some? && key in cache.value && cache.value[key].verified == Bool(true) then Some(cache.value[key]) else None
  }

  predicate Hits<C>(page: Page<C>, cache: Option<Cache>, plan: Plan) { Lookup(cache, KeyOf(page, plan)).Some? }

  predicate AllHit<C>(page: Page<C>, cache: Option<Cache>) {
    forall plan :: plan in page.plans && !plan.skipped ==> Hits(page, cache, plan)
  }

  /** The entry reused for a candidate: its hit, on a shared page only if every candidate has one. */
  function Reused<C>(page: Page<C>, cache: Option<Cache>, plan: Plan): Option<Entry> {
    if plan.skipped || (page.shared && !AllHit(page, cache)) then None else Lookup(cache, KeyOf(page, plan))
  }

  /** Some candidate must really be verified. */
  predicate NeedsVerification<C>(page: Page<C>, cache: Option<Cache>) {
    exists plan :: plan in page.plans && !plan.skipped && Reused(page, cache, plan) == None
  }

  datatype Preparation = Ready | LibraryUnavailable(message: string) | EnvironmentFailure

  /** One line of the verification report; what it copies from the candidate is its plan's. The run fields are
      there only for a candidate whose run was tried, the cache flag only when a cache is in use. */
  datatype Record =
    | LibraryMissing(message: string)
    | ImportsOnly(index: nat, plan: Plan)
    | Judged(index: nat, plan: Plan, verified: bool, output: string, run: Option<RuntimeRecord>, rejected: bool,
             cached: Option<bool>, status: string, fixtures: seq<string>)

  /** What a build returns and reports, whether it prepared the library, and the candidates it handed to the
      toolchain. */
  datatype Outcome<C> =
    | EnvironmentFailed
    | Built(chunks: seq<C>, records: seq<Record>, prepared: bool, verifiedNow: seq<Plan>, newEntries: seq<Entry>)

  function ChunksAt<C>(page: Page<C>, cache: Option<Cache>, i: nat): seq<C>
    requires i < |page.plans|
  {
    var plan := page.plans[i];
    if plan.skipped then []
    else match Reused(page, cache, plan)
      case Some(e) => Published(page, plan, true, RecordFromEntry(e))
      case None => Published(page, plan, VerdictAt(page, i).compiled, RecordOf(VerdictAt(page, i)))
  }

  /** The chunks of the first n candidates, reusing what the cache holds. */
  function CachedChunks<C>(page: Page<C>, cache: Option<Cache>, n: nat): seq<C>
    requires n <= |page.plans|
  {
    if n == 0 then [] else CachedChunks(page, cache, n - 1) + ChunksAt(page, cache, n - 1)
  }

  function RunFields(r: RuntimeRecord): Option<RuntimeRecord> {
    if r.ran.Some? then Some(r.(artefacts := [])) else None
  }

  function RecordOfEntry(i: nat, plan: Plan, e: Entry): Record {
    var r := RecordFromEntry(e);
    Judged(i, plan, CountsAsVerified(Classify(r)), e.output, RunFields(r), Rejected(plan, true, r), Some(true), "", [])
  }

  function RecordOfVerdict(i: nat, plan: Plan, v: Verdict, cached: Option<bool>): Record {
    var r := RecordOf(v);
    Judged(i, plan, CountsAsVerified(Classify(r)), v.output, RunFields(r), Rejected(plan, v.compiled, r), cached, v.status, v.fixtures)
  }

  function RecordAt<C>(page: Page<C>, cache: Option<Cache>, i: nat): Record
    requires i < |page.plans|
  {
    var plan := page.plans[i];
    if plan.skipped then ImportsOnly(i, plan)
    else match Reused(page, cache, plan)
      case Some(e) => RecordOfEntry(i, plan, e)
      case None => RecordOfVerdict(i, plan, VerdictAt(page, i), if cache.Some? then Some(false) else None)
  }

  /** The report on the first n candidates. */
  function Records<C>(page: Page<C>, cache: Option<Cache>, n: nat): (records: seq<Record>)
    requires n <= |page.plans|
    ensures |records| == n && forall i :: 0 <= i < n ==> records[i] == RecordAt(page, cache, i)
  {
    if n == 0 then [] else Records(page, cache, n - 1) + [RecordAt(page, cache, n - 1)]
  }

  /** The candidates of the first n that the toolchain gets, in document order. */
  function MissesOf<C>(page: Page<C>, cache: Option<Cache>, n: nat): seq<Plan>
    requires n <= |page.plans|
  {
    if n == 0 then []
    else
      var plan := page.plans[n - 1];
      MissesOf(page, cache, n - 1) + if !plan.skipped && Reused(page, cache, plan) == None then [plan] else []
  }

  /** Their verdicts as new entries, when a cache is in use. */
  function NewEntries<C>(page: Page<C>, cache: Option<Cache>, n: nat): seq<Entry>
    requires n <= |page.plans|
  {
    if n == 0 || cache == None then []
    else
      var plan := page.plans[n - 1];
      NewEntries(page, cache, n - 1)
      + if !plan.skipped && Reused(page, cache, plan) == None
        then [EntryOf(KeyOf(page, plan), plan.title, VerdictAt(page, n - 1))] else []
  }

  function Build<C>(page: Page<C>, cache: Option<Cache>, prepare: Preparation): Outcome<C> {
    var n := |page.plans|;
    if NeedsVerification(page, cache) && prepare == EnvironmentFailure then EnvironmentFailed
    else if NeedsVerification(page, cache) && prepare.LibraryUnavailable? then Built([], [LibraryMissing(prepare.message)], true, [], [])
    else Built(CachedChunks(page, cache, n), Records(page, cache, n), NeedsVerification(page, cache),
               MissesOf(page, cache, n), NewEntries(page, cache, n))
  }

  /** The hit entries of every plan, all dropped on a shared page with a miss. */
  method FindHits<C>(page: Page<C>, cache: Option<Cache>) returns (hits: seq<Option<Entry>>)
    ensures |hits| == |page.plans|
    ensures forall i :: 0 <= i < |hits| ==> hits[i] == Reused(page, cache, page.plans[i])
  {
    hits := [];
    var all := true;
    for i := 0 to |page.plans|
      invariant |hits| == i
      invariant forall j :: 0 <= j < i ==>
        hits[j] == if page.plans[j].skipped then None else Lookup(cache, KeyOf(page, page.plans[j]))
      invariant all <==> forall j :: 0 <= j < i ==> page.plans[j].skipped || hits[j].Some?
    {
      var plan := page.plans[i];
      var hit := if plan.skipped then None else Lookup(cache, KeyOf(page, plan));
      hits := hits + [hit];
      all := all && (plan.skipped || hit.Some?);
    }
    AllHitIs(page, cache);
    if page.shared && !all {
      hits := seq(|page.plans|, _ => None);
    }
  }

  lemma AllHitIs<C>(page: Page<C>, cache: Option<Cache>)
    ensures AllHit(page, cache) <==>
            forall i :: 0 <= i < |page.plans| ==> page.plans[i].skipped || Hits(page, cache, page.plans[i])
  {
    if AllHit(page, cache) {
      assert forall i :: 0 <= i < |page.plans| ==> page.plans[i] in page.plans;
    }
  }

  /** What one more candidate adds. */
  lemma OneMore<C>(page: Page<C>, cache: Option<Cache>, i: nat)
    requires i < |page.plans|
    ensures CachedChunks(page, cache, i + 1) == CachedChunks(page, cache, i) + ChunksAt(page, cache, i)
    ensures Records(page, cache, i + 1) == Records(page, cache, i) + [RecordAt(page, cache, i)]
    ensures var miss := !page.plans[i].skipped && Reused(page, cache, page.plans[i]) == None;
            && MissesOf(page, cache, i + 1) == MissesOf(page, cache, i) + (if miss then [page.plans[i]] else [])
            && NewEntries(page, cache, i + 1) == NewEntries(page, cache, i) +
                 if miss && cache.Some? then [EntryOf(KeyOf(page, page.plans[i]), page.plans[i].title, VerdictAt(page, i))] else []
    ensures Ran(page.plans[..i + 1]) == Ran(page.plans[..i]) + if page.plans[i].skipped then [] else [page.plans[i].effective]
  {
    hide ChunksAt, RecordAt, EntryOf, VerdictAt, Reused;
    assert page.plans[..i + 1][..i] == page.plans[..i];
  }

  /** _build_verified_example_chunks */
  method BuildVerifiedExampleChunks<C>(page: Page<C>, cache: Option<Cache>, prepare: Preparation)
    returns (outcome: Outcome<C>)
    ensures outcome == Build(page, cache, prepare)
  {
    hide Published, EntryOf, CachedChunks, Records, MissesOf, NewEntries, Ran, Reused, NeedsVerification, RecordOf, RecordFromEntry,
      RecordOfEntry, RecordOfVerdict;
    var hits := FindHits(page, cache);
    var needed := exists i :: 0 <= i < |hits| && !page.plans[i].skipped && hits[i] == None;
    NeedsVerificationIs(page, cache);
    if page.shared { SharedReusesAllOrNone(page, cache); }
    assert page.shared && needed ==> forall i :: 0 <= i < |hits| ==> hits[i] == None;
    if needed {
      match prepare
      case EnvironmentFailure => return EnvironmentFailed;
      case LibraryUnavailable(message) => return Built([], [LibraryMissing(message)], true, [], []);
      case Ready =>
    }
    var chunks: seq<C> := [];
    var records, verifiedNow, newEntries := [], [], [];
    var inWorkdir: seq<string> := [];
    NothingYet(page, cache);
    for i := 0 to |page.plans|
      invariant chunks == CachedChunks(page, cache, i)
      invariant records == Records(page, cache, i)
      invariant verifiedNow == MissesOf(page, cache, i) && newEntries == NewEntries(page, cache, i)
      invariant page.shared && needed ==> inWorkdir == Ran(page.plans[..i])
    {
      var plan := page.plans[i];
      OneMore(page, cache, i);
      if plan.skipped {
        records := records + [ImportsOnly(i, plan)];
        continue;
      }
      if hits[i].Some? {
        var e := hits[i].value;
        records := records + [RecordOfEntry(i, plan, e)];
        chunks := chunks + Published(page, plan, true, RecordFromEntry(e));
      } else {
        var verdict := page.verify(if page.shared then inWorkdir else [], plan.effective);
        assert verdict == VerdictAt(page, i);
        inWorkdir := inWorkdir + [plan.effective];
        verifiedNow := verifiedNow + [plan];
        records := records + [RecordOfVerdict(i, plan, verdict, if cache.Some? then Some(false) else None)];
        chunks := chunks + Published(page, plan, verdict.compiled, RecordOf(verdict));
        if cache.Some? {
          newEntries := newEntries + [EntryOf(KeyOf(page, plan), plan.title, verdict)];
        }
      }
    }
    outcome := Built(chunks, records, needed, verifiedNow, newEntries);
  }

  lemma NothingYet<C>(page: Page<C>, cache: Option<Cache>)
    ensures CachedChunks(page, cache, 0) == [] && MissesOf(page, cache, 0) == [] && NewEntries(page, cache, 0) == []
    ensures Records(page, cache, 0) == []
    ensures Ran(page.plans[..0]) == []
  {
  }

  lemma NeedsVerificationIs<C>(page: Page<C>, cache: Option<Cache>)
    ensures NeedsVerification(page, cache) <==>
            exists i :: 0 <= i < |page.plans| && !page.plans[i].skipped && Reused(page, cache, page.plans[i]) == None
  {
    if NeedsVerification(page, cache) {
      var plan :| plan in page.plans && !plan.skipped && Reused(page, cache, plan) == None;
      var i :| 0 <= i < |page.plans| && page.plans[i] == plan;
    }
  }

  // ----- what the cache promises -----

  /** On a shared page the entries reused are all or none. */
  lemma SharedReusesAllOrNone<C>(page: Page<C>, cache: Option<Cache>)
    requires page.shared
    ensures NeedsVerification(page, cache) ==> forall plan :: plan in page.plans ==> Reused(page, cache, plan) == None
  {
    if AllHit(page, cache) {
      assert forall plan :: plan in page.plans && !plan.skipped ==> Reused(page, cache, plan).Some?;
    }
  }

  /** The library is prepared exactly when some active candidate has no entry to reuse: on a shared page when
      any misses, and without a cache when there is any candidate at all. */
  lemma PreparesExactlyOnAMiss<C>(page: Page<C>, cache: Option<Cache>)
    ensures NeedsVerification(page, cache) <==> !AllHit(page, cache)
    ensures NeedsVerification(page, None) <==> exists plan :: plan in page.plans && !plan.skipped
  {
    if !AllHit(page, cache) {
      var plan :| plan in page.plans && !plan.skipped && !Hits(page, cache, plan);
      assert Reused(page, cache, plan) == None;
    }
  }

  /** The entry says what the verdict says; artefact names and all but the tail of the output are not kept. */
  predicate Agrees(e: Entry, v: Verdict) {
    e.verified == Bool(v.compiled) && e.output == Tail(v.output) && RecordFromEntry(e) == RecordOf(v).(artefacts := [])
  }

  /** What is written for a verdict reads back as that verdict. */
  lemma WrittenEntryAgrees(key: Key, title: string, v: Verdict)
    ensures Agrees(EntryOf(key, title, v), v)
    ensures EntryOf(key, title, v).key == key
  {
  }

  /** What is written for a verdict names its candidate, and tells how its run went if one was tried. */
  lemma EntryIsExact<C>(page: Page<C>, plan: Plan, v: Verdict)
    ensures var e, tried := EntryOf(KeyOf(page, plan), plan.title, v), v.compiled && v.execution.Some?;
            && e.key.provenance == plan.provenance && e.key.codeSha == plan.codeSha && e.title == plan.title
            && e.key.commit == page.commit && e.key.platform == page.platform && e.key.toolchain == page.toolchain
            && e.verified == Bool(v.compiled)
            && (|v.output| <= OUTPUT_TAIL ==> e.output == v.output)
            && (|v.output| > OUTPUT_TAIL ==> |e.output| == OUTPUT_TAIL && exists head :: v.output == head + e.output)
            && (!tried ==> {e.compiled, e.ran, e.exitCode, e.produced, e.error} == {Absent})
            && (tried && v.execution.value.NotStarted? ==>
                  && e.compiled == Bool(true) && e.ran == Bool(false) && e.exitCode == Absent && e.produced == Absent
                  && (v.execution.value.reason != "" ==> e.error == Text(v.execution.value.reason)))
            && (tried && v.execution.value.Finished? ==>
                  && e.compiled == Bool(true) && e.ran == Bool(true)
                  && e.exitCode == Int(v.execution.value.exitCode) && e.produced == Int(v.execution.value.produced)
                  && e.error == if v.execution.value.error == "" then Absent else Text(v.execution.value.error))
  {
    if |v.output| > OUTPUT_TAIL {
      assert v.output == v.output[..|v.output| - OUTPUT_TAIL] + Tail(v.output);
    }
  }

  /** Every candidate whose key is in the cache would get the recorded verdict. */
  ghost predicate CacheAgrees<C>(page: Page<C>, cache: Cache) {
    forall i :: 0 <= i < |page.plans| && !page.plans[i].skipped && KeyOf(page, page.plans[i]) in cache ==>
      Agrees(cache[KeyOf(page, page.plans[i])], VerdictAt(page, i))
  }

  /** Artefact names play no part in what is published. */
  lemma ArtefactsDoNotShow<C>(page: Page<C>, plan: Plan, compiled: bool, r: RuntimeRecord)
    ensures Published(page, plan, compiled, r.(artefacts := [])) == Published(page, plan, compiled, r)
  {
  }

  lemma ReuseShowsTheSame<C>(page: Page<C>, cache: Cache, i: nat)
    requires CacheAgrees(page, cache) && i < |page.plans|
    ensures ChunksAt(page, Some(cache), i) == ChunksAt(page, None, i)
  {
    hide Published, RecordOf, RecordFromEntry;
    var plan := page.plans[i];
    var v := VerdictAt(page, i);
    if !plan.skipped && Reused(page, Some(cache), plan).Some? {
      ArtefactsDoNotShow(page, plan, true, RecordOf(v));
    }
  }

  lemma {:induction false} CachedChunksAreFresh<C>(page: Page<C>, cache: Cache, n: nat)
    requires CacheAgrees(page, cache) && n <= |page.plans|
    ensures CachedChunks(page, Some(cache), n) == CachedChunks(page, None, n)
  {
    hide CacheAgrees, ChunksAt;
    if n > 0 {
      CachedChunksAreFresh(page, cache, n - 1);
      ReuseShowsTheSame(page, cache, n - 1);
    }
  }

  /** The cache changes nothing that is published: with entries that agree with the toolchain and a library
      that can be prepared, the chunks are those of a build without a cache. */
  lemma CacheIsTransparent<C>(page: Page<C>, cache: Cache)
    requires CacheAgrees(page, cache)
    ensures Build(page, Some(cache), Ready).Built? && Build(page, None, Ready).Built?
    ensures Build(page, Some(cache), Ready).chunks == Build(page, None, Ready).chunks == FreshChunks(page, |page.plans|)
  {
    hide CacheAgrees, CachedChunks, FreshChunks;
    CachedChunksAreFresh(page, cache, |page.plans|);
    UncachedChunksAreFresh(page, |page.plans|);
  }

  lemma {:induction false} UncachedChunksAreFresh<C>(page: Page<C>, n: nat)
    requires n <= |page.plans|
    ensures CachedChunks(page, None, n) == FreshChunks(page, n)
  {
    hide Published;
    if n > 0 { UncachedChunksAreFresh(page, n - 1); }
  }

  /** A page whose candidates all hit is published whatever happens to the library, and nothing is verified. */
  lemma FullyCachedNeedsNoLibrary<C>(page: Page<C>, cache: Cache, prepare: Preparation)
    requires AllHit(page, Some(cache))
    ensures Build(page, Some(cache), prepare) == Build(page, Some(cache), Ready)
    ensures !Build(page, Some(cache), prepare).prepared && Build(page, Some(cache), prepare).verifiedNow == []
  {
    hide CachedChunks, NewEntries;
    PreparesExactlyOnAMiss(page, Some(cache));
    NothingMissed(page, cache, |page.plans|);
  }

  lemma {:induction false} NothingMissed<C>(page: Page<C>, cache: Cache, n: nat)
    requires AllHit(page, Some(cache)) && n <= |page.plans|
    ensures MissesOf(page, Some(cache), n) == []
  {
    if n > 0 {
      NothingMissed(page, cache, n - 1);
      assert page.plans[n - 1] in page.plans;
    }
  }

  /** The candidate compiled, was run, exited with 0 and produced output. */
  predicate ReallyRan(v: Verdict) {
    v.compiled && v.execution.Some? && v.execution.value.Finished?
    && v.execution.value.exitCode == 0 && v.execution.value.produced > 0
  }

  /** A chunk is labelled as having run exactly when its candidate really ran. */
  lemma RanLabelIsHonest<C>(page: Page<C>, plan: Plan, v: Verdict)
    ensures var lines := DocOf(page, plan, RecordOf(v)).runtime;
            lines.Lines? && lines.status == RanOk <==> ReallyRan(v)
  {
  }

  /** An authored example is published only when it compiled and, if it was run at all, really ran; any other
      one also with a failed or empty run, unless the empty output is of a format documented as missing. */
  lemma PublishedExactly<C>(page: Page<C>, plan: Plan, v: Verdict)
    requires page.chunksOf(DocOf(page, plan, RecordOf(v))) != []
    ensures Published(page, plan, v.compiled, RecordOf(v)) != [] <==>
            v.compiled && (v.execution == None || ReallyRan(v) ||
              (plan.provenance != "authored" && !(plan.namesUnimplemented && Classify(RecordOf(v)) == NoOutput)))
  {
  }

  /** An authored example is never cut, and any other one is published as the chunker cuts it. */
  lemma AuthoredIsOnePiece<C>(page: Page<C>, plan: Plan, compiled: bool, r: RuntimeRecord)
    ensures plan.provenance == "authored" && Published(page, plan, compiled, r) != [] ==>
              var doc := DocOf(page, plan, r);
              var cut := page.chunksOf(doc);
              Published(page, plan, compiled, r) == if |cut| == 1 then cut else [page.whole(cut[0], doc)]
    ensures plan.provenance != "authored" && Published(page, plan, compiled, r) != [] ==>
              Published(page, plan, compiled, r) == page.chunksOf(DocOf(page, plan, r))
  {
  }

  /** What is published of a candidate is its own document: its texts, and the lines its run earned. */
  lemma PublishedIsItsOwn<C>(page: Page<C>, plan: Plan, compiled: bool, r: RuntimeRecord) returns (doc: Doc)
    ensures Published(page, plan, compiled, r) in {[], Pieces(page, doc)}
    ensures doc.title == plan.title && doc.description == plan.description && doc.program == plan.program
    ensures doc.harness == plan.harness && (doc.authored <==> plan.provenance == "authored")
    ensures doc.runtime == NoLines <==> Classify(r) in {NotCompiled, Unknown}
    ensures doc.runtime.Lines? ==>
              && doc.runtime.status == Classify(r) && doc.runtime.produced == r.produced
              && doc.runtime.error == if Classify(r) == Failed then page.errorLine(r.error) else ""
  {
    doc := DocOf(page, plan, r);
  }

  // ----- the report -----

  /** Whether the report on a candidate says that it is published. */
  predicate ReportedAsPublished(record: Record) {
    record.Judged? &&
    (record.verified ||
      (record.plan.provenance != "authored" && !record.rejected &&
        (record.cached == Some(true) || (record.run.Some? && record.run.value.compiled))))
  }

  /** There is one record for each candidate, in order; it says whether the toolchain was asked, and the
      candidate is published exactly when its record says so. */
  lemma ReportIsTrue<C>(page: Page<C>, cache: Option<Cache>, i: nat)
    requires i < |page.plans| && (forall doc :: page.chunksOf(doc) != [])
    ensures var outcome := Build(page, cache, Ready);
            var record := outcome.records[i];
            && outcome.Built? && |outcome.records| == |page.plans| && record.index == i && record.plan == page.plans[i]
            && (ReportedAsPublished(record) <==> ChunksAt(page, cache, i) != [])
            && (record.Judged? ==> record.cached == if cache == None then None else Some(Reused(page, cache, page.plans[i]).Some?))
  {
    hide CachedChunks, MissesOf, NewEntries, Reused, NeedsVerification, VerdictAt, RecordFromEntry;
    ReuseIsOfAHit(page, cache, page.plans[i]);
  }

  /** A reused entry is of a candidate that compiled. */
  lemma ReuseIsOfAHit<C>(page: Page<C>, cache: Option<Cache>, plan: Plan)
    ensures Reused(page, cache, plan).Some? ==>
              cache.Some? && Reused(page, cache, plan).value.verified == Bool(true) && !plan.skipped
  {
  }

  /** The report of a reused verdict is that of the toolchain, but for the head of its output, its status and
      its fixtures. */
  lemma ReusedReportIsTheSame<C>(page: Page<C>, cache: Cache, i: nat)
    requires CacheAgrees(page, cache) && i < |page.plans| && Reused(page, Some(cache), page.plans[i]).Some?
    ensures var v := VerdictAt(page, i);
            RecordAt(page, Some(cache), i) ==
            RecordOfVerdict(i, page.plans[i], v.(output := Tail(v.output), status := "", fixtures := []), Some(true))
  {
    hide RecordFromEntry, VerdictAt, Tail;
    var v, e := VerdictAt(page, i), Reused(page, Some(cache), page.plans[i]).value;
    ReuseIsOfAHit(page, Some(cache), page.plans[i]);
    assert Agrees(e, v);
    assert Classify(RecordOf(v).(artefacts := [])) == Classify(RecordOf(v));
  }

  // ----- builds one after another -----

  /** merge_verification_cache: the new verdict replaces an entry with the identical key, the rest is kept. */
  function Merge(cache: Cache, entries: seq<Entry>): Cache {
    if entries == [] then cache
    else
      var last := entries[|entries| - 1];
      Merge(cache, entries[..|entries| - 1])[last.key := last]
  }

  /** A key of the merged cache has the last new entry with that key, or what it had before. */
  lemma {:induction false} MergeKeepsOrReplaces(cache: Cache, entries: seq<Entry>, key: Key)
    ensures key in Merge(cache, entries) <==> key in cache || exists e :: e in entries && e.key == key
    ensures key in Merge(cache, entries) ==>
              (exists e :: e in entries && e.key == key && Merge(cache, entries)[key] == e)
              || ((forall e :: e in entries ==> e.key != key) && key in cache && Merge(cache, entries)[key] == cache[key])
  {
    if entries != [] {
      var before, last := entries[..|entries| - 1], entries[|entries| - 1];
      MergeKeepsOrReplaces(cache, before, key);
      assert entries == before + [last];
      assert forall e :: e in before ==> e in entries;
      assert last in entries;
    }
  }

  /** The key decides the verdict: on this page every candidate gets the answer for its key. */
  ghost predicate KeyDecides<C>(page: Page<C>, answers: Key -> Verdict) {
    forall i :: 0 <= i < |page.plans| && !page.plans[i].skipped ==>
      VerdictAt(page, i) == answers(KeyOf(page, page.plans[i]))
  }

  ghost predicate Honest(cache: Cache, answers: Key -> Verdict) {
    forall key :: key in cache ==> Agrees(cache[key], answers(key))
  }

  lemma HonestCacheAgrees<C>(page: Page<C>, cache: Cache, answers: Key -> Verdict)
    requires KeyDecides(page, answers) && Honest(cache, answers)
    ensures CacheAgrees(page, cache)
  {
  }

  lemma {:induction false} NewEntriesAreAnswers<C>(page: Page<C>, cache: Option<Cache>, n: nat, answers: Key -> Verdict)
    requires KeyDecides(page, answers) && n <= |page.plans|
    ensures forall e :: e in NewEntries(page, cache, n) ==> Agrees(e, answers(e.key))
  {
    hide EntryOf, Agrees, Reused;
    if n > 0 {
      NewEntriesAreAnswers(page, cache, n - 1, answers);
      WrittenEntryAgrees(KeyOf(page, page.plans[n - 1]), page.plans[n - 1].title, VerdictAt(page, n - 1));
    }
  }

  /** The cache after a build. */
  function CacheAfter<C>(page: Page<C>, cache: Cache, prepare: Preparation): Cache {
    match Build(page, Some(cache), prepare)
    case EnvironmentFailed => cache
    case Built(_, _, _, _, entries) => Merge(cache, entries)
  }

  lemma BuildKeepsHonest<C>(page: Page<C>, cache: Cache, prepare: Preparation, answers: Key -> Verdict)
    requires KeyDecides(page, answers) && Honest(cache, answers)
    ensures Honest(CacheAfter(page, cache, prepare), answers)
  {
    hide Agrees, CachedChunks, MissesOf, NewEntries, KeyDecides, NeedsVerification;
    var entries := NewEntries(page, Some(cache), |page.plans|);
    NewEntriesAreAnswers(page, Some(cache), |page.plans|, answers);
    forall key | key in CacheAfter(page, cache, prepare) ensures Agrees(CacheAfter(page, cache, prepare)[key], answers(key)) {
      MergeKeepsOrReplaces(cache, entries, key);
      MergeKeepsOrReplaces(cache, [], key);
    }
  }

  datatype Round<!C> = Round(page: Page<C>, prepare: Preparation)

  function CacheAfterAll<C>(rounds: seq<Round<C>>, cache: Cache): Cache {
    if rounds == [] then cache
    else
      var last := rounds[|rounds| - 1];
      CacheAfter(last.page, CacheAfterAll(rounds[..|rounds| - 1], cache), last.prepare)
  }

  lemma {:induction false} RoundsKeepHonest<C>(rounds: seq<Round<C>>, answers: Key -> Verdict)
    requires forall r :: r in rounds ==> KeyDecides(r.page, answers)
    ensures Honest(CacheAfterAll(rounds, map[]), answers)
  {
    hide Honest, KeyDecides, CacheAfter;
    if rounds == [] {
      assert Honest(map[], answers) by { EmptyIsHonest(answers); }
    } else {
      var before, last := rounds[..|rounds| - 1], rounds[|rounds| - 1];
      assert last in rounds;
      RoundsKeepHonest(before, answers);
      BuildKeepsHonest(last.page, CacheAfterAll(before, map[]), last.prepare, answers);
    }
  }

  lemma EmptyIsHonest(answers: Key -> Verdict)
    ensures Honest(map[], answers)
  {
  }

  /** Over any run of builds from an empty cache, on pages where the key decides the verdict, the cache never
      shows: the next build publishes what it would publish without one. */
  lemma EveryBuildIsTransparent<C>(rounds: seq<Round<C>>, page: Page<C>, answers: Key -> Verdict)
    requires forall r :: r in rounds ==> KeyDecides(r.page, answers)
    requires KeyDecides(page, answers)
    ensures var cache := CacheAfterAll(rounds, map[]);
            && Build(page, Some(cache), Ready).Built? && Build(page, None, Ready).Built?
            && Build(page, Some(cache), Ready).chunks == Build(page, None, Ready).chunks
  {
    hide Build, Honest, KeyDecides, CacheAgrees, CacheAfter;
    RoundsKeepHonest(rounds, answers);
    HonestCacheAgrees(page, CacheAfterAll(rounds, map[]), answers);
    CacheIsTransparent(page, CacheAfterAll(rounds, map[]));
  }

  lemma {:induction false} MissIsWritten<C>(page: Page<C>, cache: Cache, n: nat, i: nat)
    requires i < n <= |page.plans| && !page.plans[i].skipped && Reused(page, Some(cache), page.plans[i]) == None
    ensures exists e :: e in NewEntries(page, Some(cache), n) && e.key == KeyOf(page, page.plans[i])
  {
    hide EntryOf, Reused;
    if i < n - 1 {
      MissIsWritten(page, cache, n - 1, i);
      assert forall e :: e in NewEntries(page, Some(cache), n - 1) ==> e in NewEntries(page, Some(cache), n);
    } else {
      var e := EntryOf(KeyOf(page, page.plans[i]), page.plans[i].title, VerdictAt(page, i));
      WrittenEntryAgrees(KeyOf(page, page.plans[i]), page.plans[i].title, VerdictAt(page, i));
      assert e in NewEntries(page, Some(cache), n);
    }
  }

  /** After a build of the page, exactly the candidates that compiled are hits: only failures are retried. */
  lemma NextBuildRetriesFailures<C>(page: Page<C>, cache: Cache, i: nat, answers: Key -> Verdict)
    requires KeyDecides(page, answers) && Honest(cache, answers)
    requires i < |page.plans| && !page.plans[i].skipped
    ensures Hits(page, Some(CacheAfter(page, cache, Ready)), page.plans[i]) <==> VerdictAt(page, i).compiled
  {
    hide CachedChunks, MissesOf, NewEntries, VerdictAt, NeedsVerification, RecordOf, RecordFromEntry, Merge;
    var key := KeyOf(page, page.plans[i]);
    var entries := NewEntries(page, Some(cache), |page.plans|);
    MergeKeepsOrReplaces(cache, entries, key);
    BuildKeepsHonest(page, cache, Ready, answers);
    if Reused(page, Some(cache), page.plans[i]) == None {
      MissIsWritten(page, cache, |page.plans|, i);
    }
    assert CacheAfter(page, cache, Ready) == Merge(cache, entries);
  }

  // ----- a shared directory is not part of the key -----

  const FIRST := Plan("readme", "first", "1", false, "one", "", "", "", false)

  const SECOND := Plan("readme", "second", "2", false, "two", "", "", "", false)

  /** The second program compiles only where another one ran before it. */
  function Tutorial(before: seq<string>, effective: string): Verdict {
    Verdict(effective == "one" || before != [], "", None, "", [])
  }

  function TutorialPage(plans: seq<Plan>): Page<string> {
    Page(plans, "commit", "python", "toolchain", true, Tutorial, s => s, (doc: Doc) => [doc.title], (chunk, doc) => chunk)
  }

  lemma OnePlanBuild(plan: Plan, cache: Option<Cache>)
    requires !plan.skipped
    ensures var page := TutorialPage([plan]);
            && Build(page, cache, Ready).Built?
            && Build(page, cache, Ready).chunks == ChunksAt(page, cache, 0)
  {
    hide ChunksAt, MissesOf, NewEntries, NeedsVerification;
    var page := TutorialPage([plan]);
    NothingYet(page, cache);
    assert CachedChunks(page, cache, 1) == CachedChunks(page, cache, 0) + ChunksAt(page, cache, 0);
  }

  /** Building the whole tutorial records both programs as compiled. */
  lemma TutorialIsRecorded() returns (e: Entry)
    ensures var page := TutorialPage([FIRST, SECOND]);
            var cache := CacheAfter(page, map[], Ready);
            KeyOf(page, SECOND) in cache && cache[KeyOf(page, SECOND)] == e
    ensures e == EntryOf(KeyOf(TutorialPage([SECOND]), SECOND), "second", Verdict(true, "", None, "", []))
  {
    hide CachedChunks, MissesOf, NewEntries, Ran, Merge, EntryOf;
    var page := TutorialPage([FIRST, SECOND]);
    var none: Option<Cache> := Some(map[]);
    NothingYet(page, none);
    OneMore(page, none, 0);
    OneMore(page, none, 1);
    var first := EntryOf(KeyOf(page, FIRST), "first", VerdictAt(page, 0));
    e := EntryOf(KeyOf(page, SECOND), "second", VerdictAt(page, 1));
    assert NewEntries(page, none, 2) == [first, e];
    assert VerdictAt(page, 1) == Verdict(true, "", None, "", []);
    assert [first, e][..1] == [first];
    assert CacheAfter(page, map[], Ready) == Merge(map[], [first, e]);
    LastEntryWins(map[], [first], e);
    WrittenEntryAgrees(KeyOf(page, SECOND), "second", VerdictAt(page, 1));
  }

  lemma LastEntryWins(cache: Cache, entries: seq<Entry>, e: Entry)
    ensures e.key in Merge(cache, entries + [e]) && Merge(cache, entries + [e])[e.key] == e
  {
    assert (entries + [e])[..|entries|] == entries;
  }

  /** The key does not hold what ran before in a shared directory: once both candidates are recorded, the
      page without the first one still publishes the second, which the toolchain would now reject. */
  lemma SharedPageCanPublishAStaleVerdict()
    ensures var cache := CacheAfter(TutorialPage([FIRST, SECOND]), map[], Ready);
            && Build(TutorialPage([SECOND]), Some(cache), Ready).Built?
            && Build(TutorialPage([SECOND]), Some(cache), Ready).chunks == ["second"]
            && Build(TutorialPage([SECOND]), None, Ready).Built?
            && Build(TutorialPage([SECOND]), None, Ready).chunks == []
  {
    hide Build, CacheAfter, EntryOf, Ran;
    var page := TutorialPage([SECOND]);
    var cache := CacheAfter(TutorialPage([FIRST, SECOND]), map[], Ready);
    var e := TutorialIsRecorded();
    OnePlanBuild(SECOND, Some(cache));
    OnePlanBuild(SECOND, None);
    StaleIsPublished(cache, e);
    FreshIsNot();
  }

  lemma StaleIsPublished(cache: Cache, e: Entry)
    requires var key := KeyOf(TutorialPage([SECOND]), SECOND);
             key in cache && cache[key] == e && e == EntryOf(key, "second", Verdict(true, "", None, "", []))
    ensures ChunksAt(TutorialPage([SECOND]), Some(cache), 0) == ["second"]
  {
    var page := TutorialPage([SECOND]);
    assert e.verified == Bool(true) && AllHit(page, Some(cache));
    assert Reused(page, Some(cache), SECOND) == Some(e);
    assert Classify(RecordFromEntry(e)) == Unknown;
  }

  lemma FreshIsNot()
    ensures ChunksAt(TutorialPage([SECOND]), None, 0) == []
  {
    var page := TutorialPage([SECOND]);
    assert Ran(page.plans[..0]) == [];
    assert !VerdictAt(page, 0).compiled;
    assert Reused(page, None, SECOND) == None;
  }
}
