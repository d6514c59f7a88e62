# Verification of the furnished-documentation server and its build gates

This project models, in Dafny 4.11, the parts of the repository whose guarantees are hardest to see in the code,
and proves them for all inputs, all runs or all interleavings. Each module names the file it models. Objects
whose methods update fields are classes, loops are methods with invariants, and each method is proved against a
specification function about which the lemmas then state what matters.

**The card scheduler** (`PathRules`, `Plan`, `CycleCheck`, `Overlap`, `Queue`, `Gates`, `DispatchLoop`,
`Supersession`). A plan is a dependency graph of cards with write patterns; evidence (channel lines, receipts,
environment records) is a value; dispatch, verdict and accept are steps. Main results: the cycle check and the
ancestor walk are exact, the overlap check reports exactly the races, workers in flight never share a path, the
queue never wedges and drains the plan in n rounds, and accept sees the queue as it was. Each hypothesis has its exact theorem and a run that
races without it: a forced card, a card verified without a dispatch, an acceptance taken back, a card retired in
the middle of a chain or too early.

**Concurrent server state** (`SessionEviction`, `SidecarWatcher`, `SidecarStaleness`, `RequestIds`, `RateLimitedLog`,
`HazardReader`, `HazardPrinting`). Step machines over every interleaving with ghost history: which session is
evicted and why, how fresh a cached sidecar is, which bodies are rejected and what the app sees, how many records
a limiter can emit; and a round trip for the hand-written YAML reader (YAML 1.2.2, sections 7.3, 8.1 and 8.2).

**Parsers and text transformers** (`PatchParser`, `Markdown`, `FrontMatter`, `SectionFallback`, over `PyText`).
The `-U0` diff reader finds exactly the added lines of every printed patch; the Markdown scanner and the
clean-up agree on every fence (CommonMark 0.31, sections 4.2, 4.3 and 4.5), and cleaning is idempotent; the
front-matter surgery touches four keys and nothing else; the section fallback loses no prose.

**The verification cache and the chunk sanitiser** (`VerificationCache`, `CacheReuse`, `CacheFile`,
`ChunkSanitizer`). A build with a cache publishes what a build without one does, over any run of builds, exactly
when each reused verdict was recorded in the same place; the report and the cache file are determined by what
was verified; sanitising is idempotent exactly when the removal leaves no shortcode.

Check everything with `dafny verify dfyconfig.toml`.

## Where code and documentation differ

The model follows the code.

- `infra/build_chunks.py:383` says that sanitising a sanitised text changes nothing. It does when a removal leaves
  a new shortcode (`ChunkSanitizer.RemovalCanLeaveAShortcode`; the exact conditions are
  `ChunkSanitizer.SanitizeTwiceIsExact` and `ChunkSanitizer.SanitizeTwiceWhenCapped`).
- `ops/gatecli.py:233-240` says that two cards ordered by a dependency can never race. They can after a forced
  dispatch, an early verdict or a lost acceptance (`DispatchLoop.ForcedDispatchRaces`,
  `DispatchLoop.EarlyVerdictRaces`, `DispatchLoop.LostAcceptanceRaces`); a pattern such as `a*/*` escapes the overlap
  test (`PathRules.StarClaimIsMissed`).
- `ops/gatecli.py:211-214` says that a retired card no longer writes anything. `next_card` hands it out until its
  successor is accepted (`Supersession.EarlyRetirementRaces`, and `Supersession.DispatchIsExact` for the exact
  condition).
- `ops/gatecli.py:244-246` says that a chain A, R, B through a superseded R still orders A before B. It does not:
  R satisfies B as soon as its successor is accepted (`Supersession.RetiredChainRaces`, and
  `Supersession.RetiringIsExact` for the exact condition).
- `ops/gatecli.py:1436-1438` asks at accept what next would have said before the card was verified. For the
  successor of a retired card it can say another card, since hiding the successor does not hide that it completed
  the retired one (`DispatchLoop.AcceptRefusesASuccessor`, and `DispatchLoop.AcceptIsExact` for the exact condition).
- `infra/generate_furnished_page.py:618-625` promises not to touch a character inside a fenced block. A last fence
  that is left open loses trailing empty lines (`Markdown.OpenFenceLosesItsEnd`, `Markdown.NeutraliseKeepsFences`).
- `infra/serve_http.py:1824-1828` says that a changed sidecar is served on the next request. A file that returns to
  an earlier size and modification time, or whose reload raises, is not. `infra/serve_http.py:1864` promises
  current data, re-resolved when a file changed, but every reload also reads the deployment's manifest (1678,
  1725-1726), which no signature covers: its known hazards are served as they were
  (`SidecarStaleness.ManifestIsServedStale`).
- `infra/build_chunks.py:910-918` reuses the verdicts of a shared-workdir page only as a whole, but the key does not
  hold the rest of the page (`VerificationCache.SharedPageCanPublishAStaleVerdict`, and
  `CacheReuse.SharedReuseIsExact` for the exact condition).

## Model

| member | source | states |
|---|---|---|
| `PathRules.MatchIsBySegments` | ops/gatectl.py:279-293 | a folded path matches `b/**` exactly when its slash-separated segments extend those of `b`, `b/*` when they extend them by one, and any other pattern when they are equal: never by a prefix of a segment |
| `PathRules.BackslashIsSlash` | ops/gatectl.py:275-276 | a path means the same written with backslashes |
| `PathRules.TidyOverlapIsReported` | ops/gatecli.py:252-256 | any two tidy write patterns that share a path are reported by the three-way claim test |
| `PathRules.TidyIsExact` | ops/gatecli.py:252-256 | a normalised pattern and its sibling always share a path, and the test reports that pair if and only if the pattern is tidy |
| `PathRules.TidyByBase` | ops/gatecli.py:252-256 | what a card author can check: a normalised pattern is tidy if and only if its base ends in no slash, star or blank |
| `PathRules.StarClaimIsMissed` | ops/gatecli.py:252-256 | `a*/*` is not tidy: it shares a path with `a*/**`, and the test does not report the two |
| `Overlap.ClaimPairs` | ops/gatecli.py:252-256 | the two inner loops collect exactly the overlapping pattern pairs of two cards |
| `Overlap.PairProblems` | ops/gatecli.py:250-256 | a pair ordered by a chain of dependencies is skipped, every other pair yields exactly its races |
| `Overlap.ProblemsOf` | ops/gatecli.py:248-256 | one card against every later one: exactly its races |
| `Overlap.OverlapProblems` | ops/gatecli.py:232-257 | the problems reported are exactly the races: two live cards that no dependency chain orders, with an overlapping pair of write patterns |
| `CycleCheck.CycleSearch.Visit` | ops/gatecli.py:184-194 | a visit keeps the invariant of the three-colour search, only adds reports, and finishes its card when nothing was reported |
| `CycleCheck.CycleSearch.Enter` | ops/gatecli.py:184-190 | the card turns grey on top of a stack that is still a path |
| `CycleCheck.CycleSearch.Leave` | ops/gatecli.py:191-194 | the card turns black after everything it depends on is finished |
| `CycleCheck.CycleProblems` | ops/gatecli.py:180-198 | nothing is reported if and only if the dependency graph over known cards is acyclic, and every report is a real path whose last card already occurs in it |
| `CycleCheck.AncestorWalk.Collect` | ops/gatecli.py:201-208 | the shared set grows by cards the start reaches, and stays closed under dependencies |
| `CycleCheck.Ancestors` | ops/gatecli.py:201-208 | the set returned is exact reachability, on any graph, cyclic or not |
| `Plan.ListingMeansAcyclic` | ops/gatecli.py:180-198 | a listing of all cards that puts dependencies first exists only on an acyclic plan |
| `Queue.ReadChannel` | ops/gateverify.py:625-638 | one pass over the channel yields each card's highest attempt, whether it was dispatched, and its last successor |
| `Queue.SettleOne` | ops/gateverify.py:649-698 | the status of one card before READY is decided: superseded, blocked, accepted, failed, in progress or pending, in that order of precedence |
| `Queue.SettleRows` | ops/gateverify.py:649-698 | one row per card, and the set that satisfies dependencies is exactly the accepted and superseded cards |
| `Queue.RebuildState` | ops/gateverify.py:611-704 | the rows in ascending id order carry the derived status: READY exactly for pending cards whose dependencies are all done |
| `Queue.StatusIsExact` | ops/gateverify.py:611-704 | each status exactly, from the lines, receipts and records: FAILED_INTERNAL with a rejecting receipt once a line for the card has reached attempt 3 and IN_PROGRESS before, BLOCKED_ENV with a newer environment record of a dispatch, and so on |
| `Queue.AttemptsIsGreatest` | ops/gateverify.py:625-638 | a card has reached an attempt number if and only if a line addressed to it has that number or a higher one |
| `Queue.SupersededByIsLast` | ops/gateverify.py:625-638 | the successor is that of the last supersede line of the card that names one |
| `Queue.NextIsFirstReady` | ops/gateverify.py:764-776 | next is nothing if and only if no card of a known gate is READY, and otherwise the READY card that comes first by gate, then by id |
| `Queue.NextCard` | ops/gateverify.py:764-776 | the id returned is READY, no earlier gate has a READY row, and no READY row of its gate has a smaller id |
| `Queue.CmdNext` | ops/gateverify.py:611-776 | rebuilding the rows and picking from them yields that first READY card |
| `Gates.CurrentGate` | ops/gateverify.py:706-727 | the accepted gates are exactly those with cards, all done, and a met exit; the current one is the first open gate |
| `Gates.GateStatusIsExact` | ops/gateverify.py:507-523 | each gate status exactly, from the statuses of the gate's cards and its exit evidence |
| `Gates.AcceptedMeansNothingOpen` | ops/gateverify.py:507-523 | the current gate reads ACCEPTED if and only if no gate is open and the first gate has a card; with nothing open and no card of the first gate it reads READY |
| `Gates.ReadyGateHasNext` | ops/gateverify.py:507-523 | when the current gate reads READY on an acyclic plan whose dependencies never point to a later gate, next_card returns a card of that very gate |
| `DispatchLoop.StepKeepsInv` | ops/gatecli.py:726-761 | every allowed step keeps the invariant that a started card's dependencies are accepted |
| `DispatchLoop.RunKeepsInv` | ops/gatecli.py:726-761 | so does every run from empty evidence |
| `DispatchLoop.StartedHasAcceptedAncestors` | ops/gateverify.py:700-704 | everything a started card depends on, at any distance, is accepted |
| `DispatchLoop.WorkersNeverShareAPath` | ops/gatecli.py:232-257 | in every run that dispatches only the next card, supersedes nothing, loses no acceptance and verifies no card before its dependencies, on a tidy plan without overlap problems, no path belongs to two cards in flight at once |
| `DispatchLoop.ForcedDispatchIsExact` | ops/gatecli.py:733 | `--card` keeps the invariant if and only if every other dependency of the named card is accepted and, where that card is itself needed, its accepted receipt is not outdated by an environment record |
| `DispatchLoop.ForcedDispatchRaces` | ops/gatecli.py:733 | a forced card can be in flight next to its own dependency, a pair the overlap check never reports |
| `DispatchLoop.VerdictIsExact` | ops/gateverify.py:680-697 | a receipt for any card, dispatched or not, keeps the invariant if and only if every other dependency of the card is accepted and, where a started card needs it, the receipt accepts it and is no older than the environment record of its dispatch |
| `DispatchLoop.EarlyVerdictRaces` | ops/gateverify.py:213-222 | `verify` asks for no dispatch: on a plan without overlap problems a rejecting receipt for a card that was never dispatched puts it in flight next to its own dependency, on one path |
| `DispatchLoop.EnvironmentIsExact` | ops/gateverify.py:669-679 | an environment record for any card keeps it if and only if the card was not dispatched, or no started card depends on it, or its receipt is no older than the record |
| `DispatchLoop.LostAcceptanceRaces` | ops/gateverify.py:680-697 | on a plan without overlap problems, after the run dispatch, accept, dispatch of two cards in order, a rejecting receipt for the first is possible and puts both in flight on one path |
| `Supersession.RetiringIsExact` | ops/gateverify.py:656-668 | retiring a card to an accepted successor keeps "everything a started or done card depends on is done" if and only if the dependencies of the retired card are done |
| `Supersession.RetiringEarlyIsExact` | ops/gateverify.py:656-668 | retiring it to a successor that is not accepted keeps that order if and only if its own receipt still completes it or no card underway depends on it |
| `Supersession.AcceptingIsExact` | ops/gateverify.py:640-668 | accepting a card, dispatched or not, keeps that order if and only if it and each card retired to it have their dependencies done by then |
| `Supersession.CarefulRunKeepsOrder` | ops/gatecli.py:726-761 | with supersede lines: in every run whose moves take nothing done back and complete or verify no unstarted card before its dependencies, everything a started or done card depends on is done |
| `Supersession.UnretiredWorkersNeverShareAPath` | ops/gatecli.py:232-257 | after every such run, on a tidy plan without overlap problems, no path belongs to two cards in flight that are not retired |
| `Supersession.WorkersAreApartExactly` | ops/gatecli.py:232-257 | after every such run no two cards in flight share a path, retired or not, if and only if none does in a pair with a retired card |
| `Supersession.DispatchIsExact` | ops/gateverify.py:764-776 | with workers apart, handing out the next card keeps them apart if and only if it shares no path with a card in flight while either of the two is retired |
| `Supersession.SkippingOnlySupersededIsSafe` | ops/gatecli.py:211-247 | an overlap check that skipped only cards whose status is SUPERSEDED would keep every two cards in flight apart |
| `Supersession.RetiredChainRaces` | ops/gatecli.py:244-246 | the chain A, R, B does not order A before B: on a plan without problems, once R is retired to an accepted card before A is done, B is next while A is in flight, and works on the path of A |
| `Supersession.EarlyRetirementRaces` | ops/gatecli.py:211-229 | a card retired before its successor is accepted is handed out and is in flight next to the card that shares its path, a pair that was reported until then |
| `DispatchLoop.QueueNeverWedges` | ops/gateverify.py:700-704 | on an acyclic plan with known dependencies and gates some card is next whenever one is not done and none is in flight |
| `DispatchLoop.EachRoundPicksACard` | ops/gateverify.py:764-776 | alternating dispatch and accept is a run in which each round picks a new card, after its dependencies |
| `DispatchLoop.RoundsDrainThePlan` | ops/gateverify.py:764-776 | n rounds accept all n cards, dependencies first, and then nothing is next |
| `DispatchLoop.UnstartedRestoresStatuses` | ops/gateverify.py:611-704 | hiding the card's own traces restores every earlier status if and only if its accepted receipt does not complete another card as its successor |
| `DispatchLoop.AcceptFollowsNext` | ops/gatecli.py:1439-1452 | a card that was next when dispatched, and is no card's successor, still is the expected card at accept, so accept then depends on its receipt and on main alone |
| `DispatchLoop.AcceptIsExact` | ops/gatecli.py:1439-1452 | a card that was next when dispatched passes accept if and only if its receipt and main allow it and it precedes every card that its acceptance unlocks by completing the cards retired to it |
| `DispatchLoop.AcceptRefusesASuccessor` | ops/gatecli.py:1439-1452 | a passed card that was next is refused as out of order when a card with a smaller id depends on one that was retired to it |
| `PatchParser.ReadLine` | ops/secretscan.py:163-192 | one line moves the five variables of the parser by one step |
| `PatchParser.ParsePatch` | ops/secretscan.py:154-193 | the loop over the lines ends in the state that the steps of all lines lead to |
| `PatchParser.HunkLineReadsBack` | ops/secretscan.py:180-188 | the new start of a hunk is read back from its header line |
| `PatchParser.HeaderPathIsExact` | ops/secretscan.py:165-171 | the `diff --git` line names its file if and only if the path has no blank and does not itself start with `a/` or `b/` |
| `PatchParser.QuotedHeaderPath` | ops/secretscan.py:165-171 | with quoted names it names the file under the same condition |
| `PatchParser.ParseOfRender` | ops/secretscan.py:154-193 | reading any printed `-U0` patch finds exactly its added lines with file and number, in order, whatever their text, and its paths when the header lines can name them |
| `PatchParser.BarePatchIsRead` | ops/secretscan.py:172-188 | a patch of one file without a header line is read from its target line on |
| `PatchParser.CombinedDiffStarts` | ops/secretscan.py:163-171 | a combined diff starts a file too, which only its target line names |
| `PatchParser.UnmatchedHeaderNamesNothing` | ops/secretscan.py:163-171 | a header line that the pattern does not match starts a file and names none |
| `RateLimitedLog.Limiter.Warning` | infra/serve_http.py:362-374 | one call emits or suppresses as the window allows, and reports the count carried over |
| `RateLimitedLog.EveryCallIsAccountedFor` | infra/serve_http.py:349-374 | over any call history: calls = records + the sum of their suppressed fields + the pending count |
| `RateLimitedLog.NoBurstLosesCount` | infra/serve_http.py:366-372 | with a burst of zero or less the count collected is thrown away at the next window |
| `RateLimitedLog.RateIsBounded` | infra/serve_http.py:349-374 | any closed span T holds at most burst * (ceil(T / interval) + 1) records |
| `RateLimitedLog.SuppressionIsJustified` | infra/serve_http.py:362-374 | a call is logged unless the last burst records were all logged less than an interval before it, and only the first record of a window reports dropped ones |
| `RequestIds.Stream.Receive` | infra/serve_http.py:776 | the client's messages come one by one, then disconnects |
| `RequestIds.Admit` | infra/serve_http.py:768-812 | the buffering loop and the two checks reach the decision, having pulled exactly the least deciding prefix |
| `RequestIds.RejectionIsExact` | infra/serve_http.py:727-811 | too large if and only if the body passes the ceiling, found with the least number of messages; invalid id if and only if a complete body within both limits decodes to a message, alone or in a batch, whose id is a null, a boolean, a fraction, an array or an object; everything else is forwarded whole |
| `RequestIds.BodyIsInOrder` | infra/serve_http.py:772-811 | the body that is checked is the bytes of the messages one after another |
| `RequestIds.Replay.Receive` | infra/serve_http.py:814-820 | the app's i-th receive returns the client's i-th message, buffered or not |
| `RequestIds.Serve` | infra/serve_http.py:768-820 | an app sees exactly the incoming stream, or is not called |
| `SessionEviction.Middleware.BeginRequest` | infra/serve_http.py:881-883 | up to the await: the session is stamped and counted |
| `SessionEviction.Middleware.FinishRequest` | infra/serve_http.py:886-893 | after it: counted out, and stamped only if still known |
| `SessionEviction.Middleware.ObserveOpened` | infra/serve_http.py:898-903 | a response that opens a session stamps it |
| `SessionEviction.Middleware.DropStale` | infra/serve_http.py:919-920 | exactly the sessions no longer live are forgotten |
| `SessionEviction.Middleware.Candidates` | infra/serve_http.py:921-927 | exactly the live sessions that are idle long enough with nothing in flight, each with its last activity; unseen ones are stamped |
| `SessionEviction.Middleware.ChooseVictim` | infra/serve_http.py:915-931 | under the lock, nobody below the cap or without a candidate, and otherwise the least (last seen, id) |
| `SessionEviction.Middleware.RecordEviction` | infra/serve_http.py:937-938 | after the discard: forgotten and counted once |
| `SessionEviction.ChoiceIsJustified` | infra/serve_http.py:907-936 | a victim chosen from the table really has no open request and really was idle long enough, and is the least such session |
| `SessionEviction.ChoiceIsUnique` | infra/serve_http.py:921-931 | the choice is determined: of two sessions idle for as long, the one with the smaller id |
| `SessionEviction.ChoiceIsByActivity` | infra/serve_http.py:907-936 | in every reached world the choice is decided by what really happened: nobody below the cap or when no live session without an open request has been idle long enough, and otherwise the one idle for longest, since its last activity or, if it was dropped or never active, since a choice first saw it |
| `SessionEviction.StepKeepsCounts` | infra/serve_http.py:876-905 | every step at every await keeps `_in_flight[s]` equal to the number of open requests with s |
| `SessionEviction.StepKeepsActivity` | infra/serve_http.py:876-952 | every step keeps `_last_seen` at least as late as the last real activity |
| `SessionEviction.StepKeepsExact` | infra/serve_http.py:876-952 | every step keeps `_last_seen` exact: the last begin, end or opening of a session that stayed live at every choice since it last began or opened, the choice that first saw any other one, and no other entry |
| `SessionEviction.StepKeepsLock` | infra/serve_http.py:907-938 | at most one task is past the lock |
| `SessionEviction.StepKeepsDiscards` | infra/serve_http.py:907-938 | every discard stays justified, and no admission discards twice |
| `SessionEviction.IdleSessionIsEvicted` | infra/serve_http.py:907-938 | a run that reaches the cap with one idle session starts its discard at the next POST, once it has been idle for exactly the minimum |
| `SessionEviction.EveryWorldSatisfiesInv` | infra/serve_http.py:834-952 | all of this in every world that any interleaving reaches |
| `SidecarWatcher.Watcher.constructor` | infra/serve_http.py:1837-1849 | a new watcher starts with no signature and nothing loaded, and makes a first call of snapshot() |
| `SidecarWatcher.Watcher.Snapshot` | infra/serve_http.py:1863-1880 | holding the lock: the same signature serves what is there, a new one is stored first and then replaces the snapshot unless the reload raises |
| `SidecarWatcher.LockProtectsFields` | infra/serve_http.py:1866-1880 | while a thread holds the lock no other step touches signature or snapshot |
| `SidecarWatcher.MatchIsSnapshot` | infra/serve_http.py:1865-1880 | the machine's locking step is the method when the signatures match |
| `SidecarWatcher.ReloadIsSnapshot` | infra/serve_http.py:1865-1880 | and its last reloading step is the method otherwise |
| `SidecarWatcher.RaiseIsSnapshot` | infra/serve_http.py:1867-1880 | and so is the step of a reload that raises |
| `SidecarWatcher.HitKeepsInv` | infra/serve_http.py:1863-1880 | a matching signature makes the cached content of every watched file whose signature never recurs as new as the caller's own readings |
| `SidecarWatcher.EveryWorldSatisfiesInv` | infra/serve_http.py:1851-1903 | for any files watched and read, in every interleaving of threads, writes and reloads that raise: what is cached and returned of each tracked file (watched, no signature recurring) is as new as its signature, but for the calls a raise affects |
| `SidecarWatcher.NoRaiseNoDamage` | infra/serve_http.py:1867-1880 | without a raise no call is affected |
| `SidecarWatcher.StaleExactly` | infra/serve_http.py:1863-1880 | a step serves a call stale content of a read if and only if that content was replaced before the call was made, and the step is a raise, or a match while the last reload to end raised or the file is not tracked |
| `SidecarWatcher.SnapshotIsFresh` | infra/serve_http.py:1851-1880 | what an unaffected call returns of a tracked file was read no earlier than the version present when it was made |
| `SidecarWatcher.QuietSnapshotIsCurrent` | infra/serve_http.py:1851-1880 | with no write since that call it is, for every tracked file, what a fresh resolve reads |
| `SidecarStaleness.ReadIsFreshExactly` | infra/serve_http.py:1851-1903 | as long as no reload raises, a read is never served stale if and only if its file is watched and no signature of the file recurs |
| `SidecarStaleness.FreshnessIsExact` | infra/serve_http.py:1851-1903 | for any files watched and read: as long as no reload raises, no call is ever stale if and only if every file read is watched and its signature never recurs |
| `SidecarStaleness.UnwatchedServesStale` | infra/serve_http.py:1670-1727 | a file that a reload reads and no signature covers is served as it was after it changed |
| `SidecarStaleness.ManifestIsServedStale` | infra/serve_http.py:1830-1903 | the watcher as built: a change of the deployment's manifest is served stale whatever the signatures, and each other file is served fresh if and only if its signature never recurs |
| `SidecarStaleness.RecurrenceServesStale` | infra/serve_http.py:1865-1868 | a signature of any file read that comes back serves the old content |
| `SidecarStaleness.RaiseServesStale` | infra/serve_http.py:1867-1880 | a raising reload serves the old content to that call and to a later one, because the new signature is already stored |
| `SidecarStaleness.RaisesAreNeverSafe` | infra/serve_http.py:1863-1880 | when reloads may raise, no call is ever stale if and only if a reload reads nothing |
| `HazardReader.LineReader.CloseBlock` | infra/serve_http.py:1604-1609 | an open block scalar is folded into its key |
| `HazardReader.LineReader.HandleKeyValue` | infra/serve_http.py:1611-1619 | a block header opens a block, any other value is dequoted and stored |
| `HazardReader.LineReader.BeginItem` | infra/serve_http.py:1643-1655 | a dash line closes the item before it and starts a new one |
| `HazardReader.LineReader.ReadFieldLine` | infra/serve_http.py:1657-1663 | a field line counts only at the indentation of its item's fields |
| `HazardReader.LineReader.ReadLine` | infra/serve_http.py:1623-1663 | one line of the loop is one step of the reader |
| `HazardReader.ReadHazards` | infra/serve_http.py:1582-1668 | the entries are those of the steps over the lines after the key |
| `HazardReader.TopKeyIs` | infra/serve_http.py:1549 | the top-level key line is the key and blanks |
| `HazardReader.DashRestIs` | infra/serve_http.py:1550 | a dash line is blanks, a dash, at least one blank, and the rest |
| `HazardReader.KeyValueIs` | infra/serve_http.py:1551 | a key line is a key of letters, digits and underscores, a colon, blanks, and the value |
| `HazardReader.BlockStyleIs` | infra/serve_http.py:1552 | a block header is a pipe or `>`, an optional sign, and blanks |
| `HazardReader.DequoteIs` | infra/serve_http.py:1555-1559 | a value loses its white space and one pair of equal quotes around it, and nothing else |
| `HazardPrinting.FoldedIsJoined` | infra/serve_http.py:1562-1579 | trimmed lines of a folded scalar are joined by single blanks, in order |
| `HazardPrinting.BlankLinesFoldAway` | infra/serve_http.py:1562-1579 | blank lines in a folded scalar add nothing |
| `HazardPrinting.FoldOfPrinted` | infra/serve_http.py:1562-1579 | a printed block scalar folds back to its text: literal text line by line, folded text as its trimmed lines that are not blank, in order, joined by single blanks |
| `HazardPrinting.BodyReadsBack` | infra/serve_http.py:1551-1559 | a printed field line is read back as its key and value |
| `HazardPrinting.HazardsReadBack` | infra/serve_http.py:1582-1668 | any list of hazards printed with plain, quoted, literal or folded scalars, the first key after the dash or under it, between any other top-level keys, is read back exactly, in order |
| `HazardPrinting.UnindentedItemsAreNotRead` | infra/serve_http.py:1639-1640 | a sequence in the first column, though valid YAML, is read as no hazards |
| `HazardPrinting.BareDashWithoutBlankIsIgnored` | infra/serve_http.py:1550 | a dash at the very end of its line, though valid YAML, starts no item |
| `Markdown.ScanMarkdown` | infra/generate_furnished_page.py:573-614 | the scan returns the headings and fences of the specification |
| `Markdown.ReadHeading` | infra/generate_furnished_page.py:598-613 | one line outside the fences: its heading, if any, and where to go on |
| `Markdown.ReadFence` | infra/generate_furnished_page.py:586-597 | the fence at an opener: its range, info string and dedented code |
| `Markdown.FenceHoldsItsLines` | infra/generate_furnished_page.py:557-597 | a fence holds the lines up to its closing one, or to the end, each without as many leading blanks as its opener is indented by |
| `Markdown.FencesAscend` | infra/generate_furnished_page.py:573-614 | fences come in ascending order inside the text and share no line |
| `Markdown.HeadingsArePlaced` | infra/generate_furnished_page.py:573-614 | headings are on strictly increasing lines, none of them in a fence |
| `Markdown.AtxHeadingsAreFound` | infra/generate_furnished_page.py:598-602 | an ATX line has its heading if and only if it is outside every fence and has a title |
| `Markdown.SetextHeadingsAreFound` | infra/generate_furnished_page.py:603-611 | any other line is a heading, of level one, if and only if it is outside every fence, is followed by an underline, is not itself the underline of the line before, and has a title |
| `Markdown.NeutraliseMarkdown` | infra/generate_furnished_page.py:617-642 | the loop computes the cleaned text |
| `Markdown.KeptIsLineByLine` | infra/generate_furnished_page.py:617-642 | over the fences the scanner finds: a line in a fence is kept whole, a rule outside is dropped, any other line loses its trailing blanks |
| `Markdown.BlocksAreScannedFences` | infra/generate_furnished_page.py:573-642 | the clean-up and the scanner recognise the same line ranges as fences |
| `Markdown.KeptKeepsFences` | infra/generate_furnished_page.py:617-642 | the kept lines have the same fences, verbatim, in order, and no other |
| `Markdown.LinesOfNeutralised` | infra/generate_furnished_page.py:617-642 | the lines of the cleaned text are the kept lines without empty ones at either end |
| `Markdown.NeutraliseTwice` | infra/generate_furnished_page.py:617-642 | cleaning a cleaned text changes nothing |
| `Markdown.NeutraliseKeepsClosedFences` | infra/generate_furnished_page.py:617-642 | scanning the cleaned text finds the same fences, line for line, except that a last fence left open loses its empty lines at the end |
| `Markdown.NeutraliseKeepsFences` | infra/generate_furnished_page.py:618-625 | no character of any fence is touched if and only if the last fence is closed or the text does not end with a line feed |
| `Markdown.OpenFenceLosesItsEnd` | infra/generate_furnished_page.py:618-625 | an opener and a line feed, with no closer: the fence loses its empty line |
| `FrontMatter.KeyMatches` | infra/generate_furnished_page.py:136 | every match of a top-level key, in order |
| `FrontMatter.KeyLengthIs` | infra/generate_furnished_page.py:136 | a key is letters, digits and underscores up to a colon, at least one of them |
| `FrontMatter.TopLevelSpans` | infra/generate_furnished_page.py:169-184 | one span per top-level key, up to the next one |
| `FrontMatter.SpansAreTheText` | infra/generate_furnished_page.py:169-193 | the leading text and the spans in order are the front matter, byte for byte |
| `FrontMatter.SpansOfBlocks` | infra/generate_furnished_page.py:169-184 | blocks written one after another are read back as the same spans |
| `FrontMatter.ReplaceFields` | infra/generate_furnished_page.py:376-381 | each key to replace must be there; it gets its block and no other key changes |
| `FrontMatter.JoinRaw` | infra/generate_furnished_page.py:392 | the texts joined in the order of the keys |
| `FrontMatter.ApplyFieldsToFixture` | infra/generate_furnished_page.py:363-395 | the method computes the specified page, or the specified error |
| `FrontMatter.NewFrontReadsBack` | infra/generate_furnished_page.py:363-395 | the new front matter has exactly the intended spans, in order, if and only if it ends its last line, or its last key gets new text, or that key stays last and comes only once |
| `FrontMatter.OthersAreUnchanged` | infra/generate_furnished_page.py:363-395 | every span but overview, content, faq and doc_source_commit keeps its text and place if and only if no two of them have one key and two texts |
| `FrontMatter.WrittenPage` | infra/generate_furnished_page.py:370 | the written page splits into the same text before and after and the new front matter if and only if no rendered block holds `---` |
| `FrontMatter.NewFrontCloses` | infra/generate_furnished_page.py:370-394 | the closing fence is the first one in the new front matter if and only if no rendered block holds `---` |
| `FrontMatter.MarkerIsGood` | infra/generate_furnished_page.py:383 | the marker line of a commit on one line is a block with one key and a final newline |
| `FrontMatter.ApplyTwice` | infra/generate_furnished_page.py:363-395 | applying the same fields twice gives the text of applying them once |
| `SectionFallback.ApplySectionFallback` | infra/generate_furnished_page.py:767-821 | the loops compute the specified result, mapped pairs and kept sections, or leave the sections alone |
| `SectionFallback.EachHeadingIsConsumedOnce` | infra/generate_furnished_page.py:788-807 | a heading fills one section at most and a section is filled by one heading at most |
| `SectionFallback.FiresExactly` | infra/generate_furnished_page.py:767-787 | it runs if and only if one of six of the seven sections is missing |
| `SectionFallback.SectionKeyAppend` | infra/generate_furnished_page.py:645-646 | the key of a name is put together character by character, in order |
| `SectionFallback.SectionKeyOfChar` | infra/generate_furnished_page.py:645-646 | a character stays in the key if and only if its lower-case form is a letter a to z or a digit |
| `SectionFallback.FirstAliasWins` | infra/generate_furnished_page.py:797-806 | a missing section is filled by the first heading in README order that shows something, whose key the alias table maps to it, and that was not consumed by its own name |
| `SectionFallback.AliasIsFilled` | infra/generate_furnished_page.py:797-806 | a section that such a heading stands for is filled |
| `SectionFallback.MappedPairsAre` | infra/generate_furnished_page.py:797-806 | the report names each heading consumed by an alias with its section, in README order |
| `SectionFallback.KeptIsExact` | infra/generate_furnished_page.py:808-816 | the sections kept are, in README order, exactly those that were not consumed, show something and are not boilerplate |
| `SectionFallback.NothingElseIsDropped` | infra/generate_furnished_page.py:767-821 | a level-two section with a body opens the section it went to if it was consumed, stands under Key Capabilities with its heading if not, and is dropped only as unconsumed boilerplate |
| `SectionFallback.OtherSectionsAreUnchanged` | infra/generate_furnished_page.py:784-816 | every section there was keeps its text; only Key Capabilities may go on after it |
| `SectionFallback.LevelTwoLines` | infra/generate_furnished_page.py:869-873 | the first heading of a repeated name wins |
| `SectionFallback.ReadSections` | infra/generate_furnished_page.py:869-897 | the section part of parse_readme: the canonical-name pass, the level-two bodies, the fallback |
| `SectionFallback.SectionsAreExact` | infra/generate_furnished_page.py:884-894 | the level-two sections are the level-two headings in order, each with the cleaned text of the lines down to the next heading of level one or two, or to the end |
| `SectionFallback.NamedSectionsAreExact` | infra/generate_furnished_page.py:874-882 | the canonical-name pass reads exactly the names whose first heading has such a text with something in it |
| `SectionFallback.NamedSectionsAreFromHeadings` | infra/generate_furnished_page.py:869-895 | a section read by its canonical name holds the body of the first level-two heading with that key |
| `SectionFallback.ReadmeLosesNoSection` | infra/generate_furnished_page.py:869-897 | when the fallback runs on a README, the text of every level-two heading, down to the next heading of level one or two, is in the result, whole, unless it shows nothing or the heading is boilerplate |
| `VerificationCache.FindHits` | infra/build_chunks.py:973-996 | on a shared page the entries reused are dropped as soon as one candidate misses |
| `VerificationCache.BuildVerifiedExampleChunks` | infra/build_chunks.py:956-1196 | the loop publishes, verifies, reports and records as specified, handing each candidate of a shared page the ones that ran before it; an authored example is one chunk |
| `VerificationCache.SharedReusesAllOrNone` | infra/build_chunks.py:990-996 | on a shared page all entries are reused or none is |
| `VerificationCache.PreparesExactlyOnAMiss` | infra/build_chunks.py:997 | the library is prepared if and only if some active candidate misses |
| `VerificationCache.WrittenEntryAgrees` | src/foss_mcp/indexing/example_verifier.py:3552-3608 | the entry written for a verdict reads back as that verdict, but for the artefact names |
| `VerificationCache.EntryIsExact` | infra/build_chunks.py:1139-1152 | what is written for a verdict: the key and title of its candidate, the tail of its output, and the run fields that are known |
| `VerificationCache.CacheIsTransparent` | infra/build_chunks.py:884-1202 | with entries that agree with the toolchain and a library that can be prepared, the chunks are those of a build without a cache |
| `VerificationCache.FullyCachedNeedsNoLibrary` | infra/build_chunks.py:997-1038 | a page whose candidates all hit is published whatever happens to the library, and nothing is verified |
| `VerificationCache.RanLabelIsHonest` | infra/build_chunks.py:840-857 | a chunk is labelled as having run if and only if its candidate compiled, was run, exited with 0 and produced output |
| `VerificationCache.ClassifyIsExact` | src/foss_mcp/indexing/example_verifier.py:3566-3580 | each runtime status exactly, for any record, a partly unknown one of an old cache too |
| `VerificationCache.PublishedExactly` | infra/build_chunks.py:1101-1158 | when a candidate is published, in terms of what the toolchain reported |
| `VerificationCache.PublishedIsItsOwn` | infra/build_chunks.py:1158-1186 | what is published of a candidate is its own title, description, harness line and program, with the lines its run earned |
| `VerificationCache.AuthoredIsOnePiece` | infra/build_chunks.py:1187-1196 | an authored example is published as one chunk, its whole body if the chunker would cut it, and any other one as the chunker cuts it |
| `VerificationCache.ReportIsTrue` | infra/build_chunks.py:1047-1136 | the report has one record per candidate, in order, from which one can tell exactly whether the candidate was published and whether its verdict was reused |
| `VerificationCache.ReusedReportIsTheSame` | infra/build_chunks.py:1077-1136 | the record of a reused verdict is the toolchain's, but for the head of the output, the status and the fixtures |
| `CacheFile.MergeVerificationCache` | infra/build_chunks.py:682-707 | the file is strictly ascending in the six sort fields and holds exactly the merged entries |
| `CacheFile.FileIsUnique` | infra/build_chunks.py:687-688 | only one file holds them: the text written does not depend on the order of the verdicts |
| `CacheFile.FileReadsBack` | infra/build_chunks.py:664-707 | a file read back is the cache that was written |
| `CacheFile.UnchangedExactly` | infra/build_chunks.py:682-707 | a run rewrites the same file if and only if its verdicts leave the cache as it was |
| `VerificationCache.MergeKeepsOrReplaces` | infra/build_chunks.py:682-694 | a key of the merged cache has its last new entry, or the one it had |
| `VerificationCache.BuildKeepsHonest` | infra/build_chunks.py:1046-1152 | a build on a page where the key decides the verdict keeps every entry of the cache in agreement |
| `VerificationCache.EveryBuildIsTransparent` | infra/build_chunks.py:884-1202 | after any run of such builds from an empty cache, the next one publishes what it would publish without a cache |
| `VerificationCache.NextBuildRetriesFailures` | infra/build_chunks.py:984-989 | after a build, exactly the candidates that compiled are hits |
| `VerificationCache.SharedPageCanPublishAStaleVerdict` | infra/build_chunks.py:607-620 | the key does not hold what ran before in a shared directory: removing the first of two recorded tutorials still publishes the second, which the toolchain now rejects |
| `CacheReuse.EveryCacheHasAHistory` | infra/build_chunks.py:682-694 | after any builds with one toolchain, each entry is its answer to some effective candidate after some others |
| `CacheReuse.ReuseIsExact` | infra/build_chunks.py:973-996 | over all toolchains of a platform, a page publishes the same with this cache and without, if and only if each entry answers what its candidate would be asked now, or, on a shared page, the entries answer together all that would be asked, or some candidate of a shared page is not recorded |
| `CacheReuse.RebuildIsExact` | infra/build_chunks.py:884-1196 | the same for a page built with what a first build of another page left behind |
| `CacheReuse.SharedReuseIsExact` | infra/build_chunks.py:607-620 | between shared pages, the recorded one with distinct keys: if and only if the effective candidates are the first ones of those recorded, in order and under the same keys, or one of them was not recorded |
| `ChunkSanitizer.RemoveInvisibleIs` | infra/build_chunks.py:337-350 | none of the 21 invisible characters stays, and a text without one is left alone |
| `ChunkSanitizer.RemoveInvisibleAppend` | infra/build_chunks.py:348-350 | every other character stays, in order |
| `ChunkSanitizer.StripShortcodesFromProse` | infra/build_chunks.py:364-371 | the loop drops a line only when the removal emptied it |
| `ChunkSanitizer.CodeLengthIs` | infra/build_chunks.py:353 | a shortcode is one of the two opening marks up to the first closing mark of its kind |
| `ChunkSanitizer.OneProseLine` | infra/build_chunks.py:364-371 | a line of the prose is dropped if and only if the removal changed it and left nothing but white space |
| `ChunkSanitizer.SubRemovesCode` | infra/build_chunks.py:351-361 | a shortcode goes with the blank on each side, and one blank stays if there was any |
| `ChunkSanitizer.SubFixed` | infra/build_chunks.py:353-371 | a line is left alone if and only if it holds no shortcode |
| `ChunkSanitizer.CodeAfterExampleIsKept` | infra/build_chunks.py:388-394 | from the `Example:` line on nothing is removed but invisible characters |
| `ChunkSanitizer.SanitizeChunkText` | infra/build_chunks.py:374-402 | the method computes the sanitised text |
| `ChunkSanitizer.SanitizedFits` | infra/build_chunks.py:396-402 | the result is at most 24,000 characters, or one truncation line, alone or after a head of at most 24,000 |
| `ChunkSanitizer.CapCountsOmitted` | infra/build_chunks.py:396-402 | when the cap fires, N plus the head length is the length before it, and the head ends at the last line break after the first character up to 24,000, or at 24,000 when there is none |
| `ChunkSanitizer.FixedPoints` | infra/build_chunks.py:374-402 | sanitising leaves a text alone if and only if it has no invisible character, no shortcode in its prose, and fits or is already capped |
| `ChunkSanitizer.CleanProseExactly` | infra/build_chunks.py:374-394 | the cleaned prose is free of shortcodes if and only if the removal leaves none in a line of the input's prose, up to the first line it turns into an `Example:` line |
| `ChunkSanitizer.SanitizeTwiceIsExact` | infra/build_chunks.py:383 | when the cleaned text fits: sanitising twice equals once if and only if the removal leaves no shortcode in those lines of the input |
| `ChunkSanitizer.SanitizeTwiceWhenCapped` | infra/build_chunks.py:383 | when it does not: if and only if the removal leaves none in the part of those lines that the cap keeps |
| `ChunkSanitizer.SanitizeTwiceAfterCleanRemoval` | infra/build_chunks.py:383 | a removal that leaves no shortcode in the prose makes sanitising idempotent, capped or not |
| `ChunkSanitizer.RemovalCanLeaveAShortcode` | infra/build_chunks.py:383 | for `{{{{< a >}}< b >}}` it does not: what is left is removed by the second pass |

## Left out

- DispatchLoop.WorkersNeverShareAPath: covers runs whose steps take no acceptance back and verify no card before its dependencies (`VerdictIsExact` and `EnvironmentIsExact` say which do); preflight, git and the worker are outside.
- DispatchLoop.AcceptFollowsNext: the provenance check of main is one boolean.
- PathRules.TidyOverlapIsReported: case folding is a parameter that keeps `/` and `*` and maps each character by itself; Unicode's fold tables are not part of this model.
- Gates.CurrentGate: exit reports and manifests are a verdict per gate and a set of gates; the status VERIFYING, which no code derives, is left out.
- PatchParser.ParseOfRender: `\d` is an ASCII digit here, and combined diffs are read but not printed.
- RateLimitedLog.RateIsBounded: time is `real`, so the rounding of floating-point clocks is not modelled.
- RequestIds.RejectionIsExact: JSON decoding is a parameter; a document that is not JSON is one that decodes to nothing. Headers and response bodies are left out.
- SessionEviction.EveryWorldSatisfiesInv: the session manager is its set of live ids, the lock is one task at most; a missing `_discard_session`, the log record and the except branch are left out.
- SidecarWatcher.EveryWorldSatisfiesInv: the machine interleaves file accesses on values, and the class models the locked part; a reload makes a fixed set of reads, each of one version of a file, whatever it finds; `_states`, warnings and metrics are left out.
- HazardReader.ReadHazards: starts from the lines; `str.splitlines` is left out.
- HazardPrinting.HazardsReadBack: a plain scalar is trimmed text that looks neither quoted nor like a block header; a block starts flush with its own indentation; escapes and duplicate quotes stay as they are written.
- Markdown.ScanMarkdown: the title of a heading (the ATX text group and inline Markdown) is a parameter.
- FrontMatter.ApplyFieldsToFixture: PyYAML is a parameter; reading and writing the file is left out.
- FrontMatter.ApplyTwice: asks for rendered blocks with one key in column 0 and no `---`, which `_sanitize_section_text` is there to ensure.
- SectionFallback.ReadSections: lower-casing is a parameter per character; titles, summaries and code blocks of parse_readme are left out.
- VerificationCache.BuildVerifiedExampleChunks: the candidate supply, the text hashed for a key, the chunker and the error line are parameters; an environment failure in the middle of a page, the printed lines and the fields that a record copies from its candidate are left out; the toolchain is a function of the candidate and of what ran before it in its directory.
- CacheFile.MergeVerificationCache: the JSON text of the entries is left out.
- CacheReuse.ReuseIsExact: asks that the chunker makes at least one chunk of every document, and that the platform whose pages share a directory has no run step, as it is (`infra/build_chunks.py:205` and 296).
- ChunkSanitizer.SanitizeChunkText: nothing of the function is left out; the Source-Commit line added after it is.
- Subprocesses, git, docker, helm, kubectl, HTTP and file-system calls are values or parameters; everything else under `foss_mcp` is not part of this model.
- Fetching and registering sources, deploying and smoke-testing a server, the claims ledger and the release records are scripts that call outside tools or check a record field by field; they are left out.
- Secret-detection patterns, card linting and text heuristics are left out; Python's recursion limit is not modelled.
