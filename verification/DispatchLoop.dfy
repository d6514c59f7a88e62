/** Runs of the dispatch loop: evidence grows by dispatch lines, receipts and environment records. Workers
    in flight never share a path, the queue never wedges, and accept sees the queue as it was. */
module DispatchLoop {
  import opened Options
  import opened Plan
  import opened PathRules
  import opened Queue
  import opened TextOrder
  import opened Overlap

  const EMPTY := Evidence([], map[], map[])

  ghost predicate Accepted(cards: Cards, ev: Evidence, c: CardId) {
    c in cards && Settled(cards, ev, None, c) == ACCEPTED
  }

  /** The card has been dispatched or has a receipt. */
  ghost predicate Started(ev: Evidence, c: CardId) {
    Dispatched(ev.instructions, c) || c in ev.receipts
  }

  ghost predicate NoSupersession(ev: Evidence) {
    forall line :: line in ev.instructions ==> line.kind != Supersede
  }

  lemma {:induction false} NoSupersessionMeansNoSuccessor(lines: seq<Instruction>, c: CardId)
    requires forall line :: line in lines ==> line.kind != Supersede
    ensures SupersededBy(lines, c) == None
  {
    if lines != [] {
      assert lines[|lines| - 1] in lines;
      NoSupersessionMeansNoSuccessor(lines[..|lines| - 1], c);
    }
  }

  // ----- steps and runs -----

  datatype Event =
    | DispatchNext(line: Instruction)        // `dispatch-next` without --card
    | Note(line: Instruction)                // any other line except supersede; reworks a started card at most
    | Verdict(card: CardId, receipt: Receipt)
    | Environment(card: CardId, record: EnvRecord)

  function AddLine(ev: Evidence, line: Instruction): Evidence {
    ev.(instructions := ev.instructions + [line])
  }

  function Apply(ev: Evidence, e: Event): Evidence {
    match e
    case DispatchNext(line) => AddLine(ev, line)
    case Note(line) => AddLine(ev, line)
    case Verdict(c, r) => ev.(receipts := ev.receipts[c := r])
    case Environment(c, b) => ev.(envBlocks := ev.envBlocks[c := b])
  }

  ghost predicate Enabled(cards: Cards, ev: Evidence, e: Event) {
    match e
    case DispatchNext(line) => Starts(line) && Next(cards, ev, None) == Some(line.target)
    case Note(line) => line.kind != Supersede && (Starts(line) ==> Started(ev, line.target))
    case Verdict(c, _) => c in cards        // `verify` asks for no dispatch line
    case Environment(c, _) => c in cards
  }

  /** No card that reads as ACCEPTED before the step reads otherwise after it. */
  ghost predicate KeepsAcceptance(cards: Cards, before: Evidence, after: Evidence) {
    forall c :: Accepted(cards, before, c) ==> Accepted(cards, after, c)
  }

  /** A card that was not started is verified only after its dependencies. */
  ghost predicate VerifiesInOrder(cards: Cards, ev: Evidence, e: Event) {
    e.Verdict? && e.card in cards && !Started(ev, e.card) ==>
      forall d :: d in cards[e.card].dependsOn ==> Accepted(cards, ev, d)
  }

  ghost predicate Step(cards: Cards, ev: Evidence, e: Event) {
    Enabled(cards, ev, e) && KeepsAcceptance(cards, ev, Apply(ev, e)) && VerifiesInOrder(cards, ev, e)
  }

  /** The evidence after the events, from nothing. */
  function After(events: seq<Event>): Evidence {
    if events == [] then EMPTY else Apply(After(events[..|events| - 1]), events[|events| - 1])
  }

  ghost predicate Run(cards: Cards, events: seq<Event>) {
    events != [] ==>
      Run(cards, events[..|events| - 1]) && Step(cards, After(events[..|events| - 1]), events[|events| - 1])
  }

  // ----- the invariant of every run -----

  /** Nothing is superseded, and whatever has been started had all its dependencies accepted, and still has. */
  ghost predicate Inv(cards: Cards, ev: Evidence) {
    && NoSupersession(ev)
    && forall c, d :: c in cards && Started(ev, c) && d in cards[c].dependsOn ==> Accepted(cards, ev, d)
  }

  lemma ReadyHasAcceptedDependencies(cards: Cards, ev: Evidence, c: CardId)
    requires NoSupersession(ev) && c in cards && StatusOf(cards, ev, None, c) == READY
    ensures forall d :: d in cards[c].dependsOn ==> Accepted(cards, ev, d)
  {
    forall d | d in cards[c].dependsOn ensures Accepted(cards, ev, d) {
      NoSupersessionMeansNoSuccessor(ev.instructions, d);
      assert Done(cards, ev, None, d);
    }
  }

  lemma DispatchedAfterLine(lines: seq<Instruction>, line: Instruction, c: CardId)
    ensures Dispatched(lines + [line], c) <==>
              Dispatched(lines, c) || (Addressed(line) && line.target == c && Starts(line))
  {
    assert forall l :: l in lines + [line] <==> l in lines || l == line;
  }

  lemma StepKeepsInv(cards: Cards, ev: Evidence, e: Event)
    requires Inv(cards, ev) && Step(cards, ev, e)
    ensures Inv(cards, Apply(ev, e))
  {
    var after := Apply(ev, e);
    NextIsFirstReady(cards, ev, None, 0);
    forall c, d | c in cards && Started(after, c) && d in cards[c].dependsOn ensures Accepted(cards, after, d) {
      if e.DispatchNext? || e.Note? { DispatchedAfterLine(ev.instructions, e.line, c); }
      if e.DispatchNext? && c == e.line.target { ReadyHasAcceptedDependencies(cards, ev, c); }
      assert Accepted(cards, ev, d);
    }
  }

  lemma {:induction false} RunKeepsInv(cards: Cards, events: seq<Event>)
    requires Run(cards, events)
    ensures Inv(cards, After(events))
  {
    if events != [] {
      RunKeepsInv(cards, events[..|events| - 1]);
      StepKeepsInv(cards, After(events[..|events| - 1]), events[|events| - 1]);
    }
  }

  /** Everything a started card depends on, at any distance, is accepted. */
  lemma StartedHasAcceptedAncestors(cards: Cards, ev: Evidence, c: CardId, d: CardId)
    requires Inv(cards, ev) && c in cards && Started(ev, c) && Reaches(cards, c, d)
    ensures Accepted(cards, ev, d)
  {
    var accepted := set x | x in cards && Accepted(cards, ev, x);
    forall x | x in accepted ensures Started(ev, x) {
      NoSupersessionMeansNoSuccessor(ev.instructions, x);
    }
    ReachesStaysIn(cards, c, d, accepted);
  }

  // ----- two workers in flight never share a path -----

  ghost predicate TidyPlan(f: Folding, cards: Cards) {
    forall c, x :: c in cards && x in cards[c].writePaths ==> Tidy(f, x)
  }

  ghost predicate NoProblems(f: Folding, cards: Cards, retired: set<CardId>) {
    forall p :: !Races(f, cards, retired, p)
  }

  /** Some path matches both cards' write paths. */
  ghost predicate SharePath(f: Folding, cards: Cards, a: CardId, b: CardId)
    requires a in cards && b in cards
  {
    exists path :: MatchesAny(f, path, cards[a].writePaths) && MatchesAny(f, path, cards[b].writePaths)
  }

  lemma SharedPathIsReported(f: Folding, cards: Cards, retired: set<CardId>, a: CardId, b: CardId)
    requires a in cards && b in cards && Less(a, b) && {a, b} !! retired
    requires TidyPlan(f, cards) && SharePath(f, cards, a, b)
    requires !Reaches(cards, a, b) && !Reaches(cards, b, a)
    ensures !NoProblems(f, cards, retired)
  {
    var path :| MatchesAny(f, path, cards[a].writePaths) && MatchesAny(f, path, cards[b].writePaths);
    var x :| x in cards[a].writePaths && PathMatches(f, path, x);
    var y :| y in cards[b].writePaths && PathMatches(f, path, y);
    TidyOverlapIsReported(f, x, y, path);
    assert Races(f, cards, retired, Problem(a, b, x, y));
  }

  /** Started and not done: in progress, blocked by the environment, or failed. */
  ghost predicate InFlight(cards: Cards, ev: Evidence, c: CardId) {
    c in cards && Settled(cards, ev, None, c) in {IN_PROGRESS, BLOCKED_ENV, FAILED_INTERNAL}
  }

  lemma InFlightCardsAreDisjoint(f: Folding, cards: Cards, ev: Evidence, a: CardId, b: CardId)
    requires Inv(cards, ev) && TidyPlan(f, cards) && NoProblems(f, cards, {})
    requires InFlight(cards, ev, a) && InFlight(cards, ev, b) && Less(a, b)
    ensures !SharePath(f, cards, a, b)
  {
    if Reaches(cards, a, b) { StartedHasAcceptedAncestors(cards, ev, a, b); }
    if Reaches(cards, b, a) { StartedHasAcceptedAncestors(cards, ev, b, a); }
    if SharePath(f, cards, a, b) { SharedPathIsReported(f, cards, {}, a, b); }
  }

  /** In every run that dispatches only the next card, supersedes nothing, takes no acceptance back and
      verifies in order, on
      a plan without overlap problems, no path belongs to two cards in flight at once. */
  lemma WorkersNeverShareAPath(f: Folding, cards: Cards, events: seq<Event>, a: CardId, b: CardId)
    requires Run(cards, events) && TidyPlan(f, cards)
    requires NoProblems(f, cards, SupersededIds(After(events).instructions))
    requires a != b && InFlight(cards, After(events), a) && InFlight(cards, After(events), b)
    ensures !SharePath(f, cards, a, b)
  {
    RunKeepsInv(cards, events);
    assert SupersededIds(After(events).instructions) == {};
    LeqTotal(a, b);
    if Less(a, b) {
      InFlightCardsAreDisjoint(f, cards, After(events), a, b);
    } else {
      InFlightCardsAreDisjoint(f, cards, After(events), b, a);
    }
  }

  // ----- each hypothesis is needed -----

  function Line(c: CardId): Instruction { Instruction(c, Dispatch, 1, "") }

  predicate IsCardId(c: CardId) { c != "" && c != "ALL" }

  /** The pair is skipped by the overlap check. */
  ghost predicate NotReported(f: Folding, cards: Cards, retired: set<CardId>, a: CardId, b: CardId) {
    forall p: Problem :: Races(f, cards, retired, p) ==> {p.a, p.b} != {a, b}
  }

  lemma OrderedPairIsNotReported(f: Folding, cards: Cards, retired: set<CardId>, a: CardId, b: CardId)
    requires Edge(cards, b, a)
    ensures NotReported(f, cards, retired, a, b)
  {
    ReachesDirect(cards, b, a);
    forall p: Problem | {p.a, p.b} == {a, b} ensures !Races(f, cards, retired, p) {
      assert p.a in {a, b} && p.b in {a, b};
      assert a in {p.a, p.b} && b in {p.a, p.b};
    }
  }

  /** Every dependency of the card but itself is accepted. */
  ghost predicate OthersAccepted(cards: Cards, ev: Evidence, c: CardId)
    requires c in cards
  {
    forall d :: d in cards[c].dependsOn && d != c ==> Accepted(cards, ev, d)
  }

  /** Some started card depends on this one. */
  ghost predicate HasStartedDependent(cards: Cards, ev: Evidence, c: CardId) {
    exists x :: x in cards && Started(ev, x) && c in cards[x].dependsOn
  }

  /** Some card depends on this one and is started, or is this very card. */
  ghost predicate Needed(cards: Cards, ev: Evidence, c: CardId) {
    HasStartedDependent(cards, ev, c) || (c in cards && c in cards[c].dependsOn)
  }

  /** When c is started and only c's acceptance may have changed, the invariant asks for c's dependencies, and
      for c where it is needed. */
  lemma StartAsksFor(cards: Cards, ev: Evidence, after: Evidence, c: CardId)
    requires Inv(cards, ev) && NoSupersession(after) && c in cards
    requires forall x :: Started(after, x) <==> Started(ev, x) || x == c
    requires forall x :: x != c ==> (Accepted(cards, after, x) <==> Accepted(cards, ev, x))
    ensures Inv(cards, after) <==> OthersAccepted(cards, ev, c) && (Needed(cards, ev, c) ==> Accepted(cards, after, c))
    ensures HasStartedDependent(cards, ev, c) ==> Accepted(cards, ev, c)
  {
    hide Dispatched, Started, Accepted, NoSupersession;
    if OthersAccepted(cards, ev, c) && (Needed(cards, ev, c) ==> Accepted(cards, after, c)) {
      forall x, d | x in cards && Started(after, x) && d in cards[x].dependsOn ensures Accepted(cards, after, d) {
        if d == c { assert x != c ==> HasStartedDependent(cards, ev, c); }
      }
    }
  }

  /** `dispatch-next --card` keeps the invariant exactly when every other dependency of the card is accepted and,
      if the card itself is needed, it is accepted with no environment record newer than its receipt. */
  lemma ForcedDispatchIsExact(cards: Cards, ev: Evidence, line: Instruction)
    requires Inv(cards, ev) && Addressed(line) && Starts(line) && line.target in cards
    ensures var c := line.target;
            Inv(cards, AddLine(ev, line)) <==>
              OthersAccepted(cards, ev, c) &&
              (Needed(cards, ev, c) ==> HasAcceptedReceipt(ev, c) && !EnvBlockIsCurrent(ev, c))
  {
    hide Dispatched, Accepted, Settled, EnvBlockIsCurrent, HasAcceptedReceipt;
    var c, after := line.target, AddLine(ev, line);
    forall x
      ensures Started(after, x) <==> Started(ev, x) || x == c
      ensures x != c ==> (Accepted(cards, after, x) <==> Accepted(cards, ev, x))
    {
      DispatchedAfterLine(ev.instructions, line, x);
      AcceptedAfterLine(cards, ev, line, x);
    }
    AcceptedAfterLine(cards, ev, line, c);
    StartAsksFor(cards, ev, after, c);
  }

  lemma AcceptedAfterLine(cards: Cards, ev: Evidence, line: Instruction, d: CardId)
    requires NoSupersession(ev) && Addressed(line) && Starts(line) && line.target in cards
    ensures d != line.target ==> (Accepted(cards, AddLine(ev, line), d) <==> Accepted(cards, ev, d))
    ensures d == line.target ==>
              (Accepted(cards, AddLine(ev, line), d) <==> HasAcceptedReceipt(ev, d) && !EnvBlockIsCurrent(ev, d))
  {
    hide Attempts, SupersededBy, Dispatched, Less;
    var after := AddLine(ev, line);
    NoSupersessionMeansNoSuccessor(ev.instructions, d);
    NoSupersessionMeansNoSuccessor(after.instructions, d);
    DispatchedAfterLine(ev.instructions, line, d);
  }

  lemma EdgeIsBetweenCards(cards: Cards, c: CardId, d: CardId)
    requires Edge(cards, c, d)
    ensures c in cards && d in cards
  {
  }

  /** Dispatching a card past the READY test puts it in flight next to its own dependency, whose paths it
      may share: the overlap check relies on the order and reports nothing. */
  lemma ForcedDispatchRaces(f: Folding, cards: Cards, a: CardId, b: CardId)
    requires Edge(cards, b, a) && IsCardId(a) && IsCardId(b)
    ensures NotReported(f, cards, {}, a, b)
    ensures var ev := AddLine(AddLine(EMPTY, Line(a)), Line(b));
            InFlight(cards, ev, a) && InFlight(cards, ev, b)
  {
    hide Attempts, NotReported, Edge;
    OrderedPairIsNotReported(f, cards, {}, a, b);
    assert a in cards && b in cards by { EdgeIsBetweenCards(cards, b, a); }
    var ev := AddLine(AddLine(EMPTY, Line(a)), Line(b));
    assert ev.instructions[0] == Line(a) && ev.instructions[1] == Line(b);
    NoSupersessionMeansNoSuccessor(ev.instructions, a);
    NoSupersessionMeansNoSuccessor(ev.instructions, b);
  }

  /** A receipt that accepts the card, with no newer environment record of a dispatch of it. */
  predicate Accepts(ev: Evidence, c: CardId, r: Receipt) {
    r.accepted && !(Dispatched(ev.instructions, c) && c in ev.envBlocks && Less(r.generatedAt, ev.envBlocks[c].generatedAt))
  }

  /** A receipt, for any card, keeps the invariant exactly when every other dependency of the card is accepted
      and, if the card itself is needed, the receipt accepts it. */
  lemma VerdictIsExact(cards: Cards, ev: Evidence, c: CardId, r: Receipt)
    requires Inv(cards, ev) && c in cards
    ensures Inv(cards, Apply(ev, Verdict(c, r))) <==>
              OthersAccepted(cards, ev, c) && (Needed(cards, ev, c) ==> Accepts(ev, c, r))
  {
    hide Dispatched, Less, Accepted, Settled, Accepts, Needed, OthersAccepted;
    var after := Apply(ev, Verdict(c, r));
    forall x
      ensures Started(after, x) <==> Started(ev, x) || x == c
      ensures x != c ==> (Accepted(cards, after, x) <==> Accepted(cards, ev, x))
    {
      AcceptedAfterReceipt(cards, ev, c, r, x);
    }
    AcceptedAfterReceipt(cards, ev, c, r, c);
    StartAsksFor(cards, ev, after, c);
  }

  lemma AcceptedAfterReceipt(cards: Cards, ev: Evidence, c: CardId, r: Receipt, x: CardId)
    requires NoSupersession(ev) && c in cards
    ensures x != c ==> (Accepted(cards, Apply(ev, Verdict(c, r)), x) <==> Accepted(cards, ev, x))
    ensures x == c ==> (Accepted(cards, Apply(ev, Verdict(c, r)), x) <==> Accepts(ev, c, r))
  {
    hide Dispatched, Attempts, Less;
    NoSupersessionMeansNoSuccessor(ev.instructions, x);
  }

  /** An environment record, for any card, keeps the invariant exactly when the card was not dispatched, or no
      started card depends on it, or its receipt is no older than the record. */
  lemma EnvironmentIsExact(cards: Cards, ev: Evidence, c: CardId, b: EnvRecord)
    requires Inv(cards, ev) && c in cards
    ensures Inv(cards, Apply(ev, Environment(c, b))) <==>
              (Dispatched(ev.instructions, c) && HasStartedDependent(cards, ev, c) ==>
                 c in ev.receipts && !Less(ev.receipts[c].generatedAt, b.generatedAt))
  {
    hide Dispatched, Less, Accepted, Settled;
    var after := Apply(ev, Environment(c, b));
    forall x ensures x != c ==> (Accepted(cards, after, x) <==> Accepted(cards, ev, x)) {
      AcceptedAfterRecord(cards, ev, c, b, x);
    }
    AcceptedAfterRecord(cards, ev, c, b, c);
    assert forall x :: Started(after, x) <==> Started(ev, x);
    if HasStartedDependent(cards, ev, c) { assert Accepted(cards, ev, c); }
  }

  lemma AcceptedAfterRecord(cards: Cards, ev: Evidence, c: CardId, b: EnvRecord, x: CardId)
    requires NoSupersession(ev)
    ensures x != c ==> (Accepted(cards, Apply(ev, Environment(c, b)), x) <==> Accepted(cards, ev, x))
    ensures x == c && Accepted(cards, ev, c) ==>
              c in ev.receipts &&
              (Accepted(cards, Apply(ev, Environment(c, b)), c) <==>
                 (Dispatched(ev.instructions, c) ==> !Less(ev.receipts[c].generatedAt, b.generatedAt)))
  {
    hide Dispatched, Attempts, Less;
    NoSupersessionMeansNoSuccessor(ev.instructions, x);
  }

  /** A READY card that precedes every other READY card is next. */
  lemma FirstReadyIsNext(cards: Cards, ev: Evidence, c: CardId)
    requires c in cards && cards[c].gate in GATES && StatusOf(cards, ev, None, c) == READY
    requires forall x :: x in cards && StatusOf(cards, ev, None, x) == READY ==> Precedes(cards, c, x)
    ensures Next(cards, ev, None) == Some(c)
  {
    hide StatusOf, Next;
    NextIsTheFirst(cards, ev, None, c);
  }

  /** What the lines say once one more dispatch line is there. */
  lemma LineDispatches(lines: seq<Instruction>, c: CardId, x: CardId)
    requires IsCardId(c)
    ensures Dispatched(lines + [Line(c)], x) <==> Dispatched(lines, x) || x == c
    ensures SupersededBy(lines + [Line(c)], x) == SupersededBy(lines, x)
  {
    DispatchedAfterLine(lines, Line(c), x);
    assert (lines + [Line(c)])[..|lines|] == lines;
  }

  /** Two cards, the second one after the first, with the same write paths. */
  function TwoCards(gate: string, a: CardId, b: CardId, paths: seq<string>): Cards {
    map[a := Card(gate, [], paths), b := Card(gate, [a], paths)]
  }

  lemma TwoCardsHaveNoProblem(f: Folding, gate: string, a: CardId, b: CardId, paths: seq<string>)
    requires a != b
    ensures NoProblems(f, TwoCards(gate, a, b, paths), {})
  {
    var cards := TwoCards(gate, a, b, paths);
    ReachesDirect(cards, b, a);
    assert forall x, y :: x in cards && y in cards && x != y ==> Reaches(cards, x, y) || Reaches(cards, y, x);
  }

  /** The statuses of the two cards by what was recorded. */
  lemma TwoCardsStatuses(gate: string, a: CardId, b: CardId, paths: seq<string>, ev: Evidence)
    requires a != b && NoSupersession(ev) && ev.envBlocks == map[]
    ensures var cards := TwoCards(gate, a, b, paths);
            && (Settled(cards, ev, None, a) == ACCEPTED <==> HasAcceptedReceipt(ev, a))
            && (a !in ev.receipts && !Dispatched(ev.instructions, a) ==> StatusOf(cards, ev, None, a) == READY)
            && (b !in ev.receipts && !Dispatched(ev.instructions, b) ==>
                  StatusOf(cards, ev, None, b) == if HasAcceptedReceipt(ev, a) then READY else PENDING)
  {
    hide Attempts, Dispatched;
    NoSupersessionMeansNoSuccessor(ev.instructions, a);
    NoSupersessionMeansNoSuccessor(ev.instructions, b);
    var cards := TwoCards(gate, a, b, paths);
    assert a in cards[b].dependsOn && forall d :: d in cards[b].dependsOn ==> d == a;
    assert Done(cards, ev, None, a) <==> HasAcceptedReceipt(ev, a);
  }

  lemma TwoCardsNext(gate: string, a: CardId, b: CardId, paths: seq<string>, ev: Evidence, c: CardId)
    requires a != b && gate in GATES && NoSupersession(ev) && ev.envBlocks == map[]
    requires b !in ev.receipts && !Dispatched(ev.instructions, b)
    requires if HasAcceptedReceipt(ev, a) then c == b
             else c == a && a !in ev.receipts && !Dispatched(ev.instructions, a)
    ensures Next(TwoCards(gate, a, b, paths), ev, None) == Some(c)
  {
    hide Settled, StatusOf, Dispatched, Next;
    var cards := TwoCards(gate, a, b, paths);
    TwoCardsStatuses(gate, a, b, paths, ev);
    forall x | x in cards && StatusOf(cards, ev, None, x) == READY ensures Precedes(cards, c, x) {
      if x == c { LeqReflexive(c); } else { SettledIsNotReady(cards, ev, x); }
    }
    FirstReadyIsNext(cards, ev, c);
  }

  lemma SettledIsNotReady(cards: Cards, ev: Evidence, c: CardId)
    requires c in cards
    ensures Settled(cards, ev, None, c) != READY
    ensures Settled(cards, ev, None, c) != PENDING ==> StatusOf(cards, ev, None, c) == Settled(cards, ev, None, c)
  {
  }

  /** The run that dispatches and accepts the first card, then dispatches the second. */
  lemma TwoCardsRun(gate: string, a: CardId, b: CardId, paths: seq<string>, ok: Receipt)
    requires a != b && IsCardId(a) && IsCardId(b) && gate in GATES && ok.accepted
    ensures var events := [DispatchNext(Line(a)), Verdict(a, ok), DispatchNext(Line(b))];
            && Run(TwoCards(gate, a, b, paths), events)
            && After(events) == Evidence([Line(a), Line(b)], map[a := ok], map[])
  {
    hide Next, Settled, Run, After, Dispatched;
    var cards := TwoCards(gate, a, b, paths);
    var e1 := AddLine(EMPTY, Line(a));
    var e2 := Apply(e1, Verdict(a, ok));
    LineDispatches([], a, a);
    LineDispatches([], a, b);
    assert [] + [Line(a)] == [Line(a)];
    assert !Dispatched([], a) && !Dispatched([], b) by { NothingDispatched(a); NothingDispatched(b); }
    TwoCardsNext(gate, a, b, paths, EMPTY, a);
    TwoCardsNext(gate, a, b, paths, e2, b);
    DispatchKeepsAcceptance(cards, EMPTY, a, ok);
    DispatchKeepsAcceptance(cards, e2, b, ok);
    NothingIsARun(cards);
    RunAppend(cards, [], DispatchNext(Line(a)), Verdict(a, ok));
    AfterAppend([], DispatchNext(Line(a)), Verdict(a, ok));
    var two := [] + [DispatchNext(Line(a)), Verdict(a, ok)];
    assert After(two) == e2;
    RunOneMore(cards, two, DispatchNext(Line(b)));
    AfterOne(two, DispatchNext(Line(b)));
    assert two + [DispatchNext(Line(b))] == [DispatchNext(Line(a)), Verdict(a, ok), DispatchNext(Line(b))];
  }

  lemma NothingDispatched(c: CardId)
    ensures !Dispatched([], c)
  {
  }

  lemma NothingIsARun(cards: Cards)
    ensures Run(cards, []) && After([]) == EMPTY
  {
  }

  lemma RunOneMore(cards: Cards, events: seq<Event>, e: Event)
    requires Run(cards, events) && Step(cards, After(events), e)
    ensures Run(cards, events + [e])
  {
    hide Step, After;
    assert (events + [e])[..|events|] == events;
  }

  /** On a plan without problems: after a run that accepts a card and dispatches one that depends on it, a
      rejecting receipt for the accepted card is possible and puts both in flight on the same paths. */
  lemma LostAcceptanceRaces(f: Folding, gate: string, a: CardId, b: CardId, path: string, ok: Receipt, bad: Receipt)
    requires a != b && IsCardId(a) && IsCardId(b) && gate in GATES && ok.accepted && !bad.accepted
    requires PathMatches(f, path, path)
    ensures var cards := TwoCards(gate, a, b, [path]);
            var events := [DispatchNext(Line(a)), Verdict(a, ok), DispatchNext(Line(b))];
            var after := Apply(After(events), Verdict(a, bad));
            && NoProblems(f, cards, {}) && Run(cards, events) && Enabled(cards, After(events), Verdict(a, bad))
            && InFlight(cards, after, a) && InFlight(cards, after, b) && SharePath(f, cards, a, b)
  {
    hide PathMatches, Run, After, NoProblems, Attempts;
    var cards := TwoCards(gate, a, b, [path]);
    TwoCardsHaveNoProblem(f, gate, a, b, [path]);
    TwoCardsRun(gate, a, b, [path], ok);
    assert MatchesAny(f, path, [path]) by { assert path in [path]; }
    var lines := [Line(a), Line(b)];
    assert lines[0] in lines && lines[1] in lines;
    NoSupersessionMeansNoSuccessor(lines, a);
    NoSupersessionMeansNoSuccessor(lines, b);
  }

  /** Verifying a card that was not dispatched: a rejecting receipt puts it in flight next to its own dependency,
      on a plan without problems. */
  lemma EarlyVerdictRaces(f: Folding, gate: string, a: CardId, b: CardId, path: string, bad: Receipt)
    requires a != b && IsCardId(a) && IsCardId(b) && gate in GATES && !bad.accepted && PathMatches(f, path, path)
    ensures var cards := TwoCards(gate, a, b, [path]);
            var after := Apply(After([DispatchNext(Line(a))]), Verdict(b, bad));
            && NoProblems(f, cards, {}) && Run(cards, [DispatchNext(Line(a))])
            && Enabled(cards, After([DispatchNext(Line(a))]), Verdict(b, bad))
            && InFlight(cards, after, a) && InFlight(cards, after, b) && SharePath(f, cards, a, b)
  {
    hide PathMatches, Run, After, NoProblems, Attempts;
    var cards := TwoCards(gate, a, b, [path]);
    TwoCardsHaveNoProblem(f, gate, a, b, [path]);
    TwoCardsStart(gate, a, b, [path], bad);
    assert MatchesAny(f, path, [path]) by { assert path in [path]; }
    assert Line(a) in [Line(a)];
    NoSupersessionMeansNoSuccessor([Line(a)], a);
    NoSupersessionMeansNoSuccessor([Line(a)], b);
  }

  lemma TwoCardsStart(gate: string, a: CardId, b: CardId, paths: seq<string>, r: Receipt)
    requires a != b && IsCardId(a) && IsCardId(b) && gate in GATES
    ensures Run(TwoCards(gate, a, b, paths), [DispatchNext(Line(a))])
    ensures After([DispatchNext(Line(a))]) == Evidence([Line(a)], map[], map[])
  {
    hide Next, Settled, Run, After, Dispatched;
    var cards, ok := TwoCards(gate, a, b, paths), r.(accepted := true);
    assert !Dispatched([], a) && !Dispatched([], b) by { NothingDispatched(a); NothingDispatched(b); }
    TwoCardsNext(gate, a, b, paths, EMPTY, a);
    DispatchKeepsAcceptance(cards, EMPTY, a, ok);
    NothingIsARun(cards);
    RunOneMore(cards, [], DispatchNext(Line(a)));
    AfterOne([], DispatchNext(Line(a)));
    assert [] + [DispatchNext(Line(a))] == [DispatchNext(Line(a))] && [] + [Line(a)] == [Line(a)];
  }

  // ----- the queue never wedges -----

  /** Every dependency is a card and every gate is a gate. */
  ghost predicate KnownPlan(cards: Cards) {
    forall c :: c in cards ==> cards[c].gate in GATES && forall d :: d in cards[c].dependsOn ==> d in cards
  }

  lemma ReachSetShrinks(cards: Cards, c: CardId, d: CardId)
    requires Acyclic(cards) && Edge(cards, c, d)
    ensures |ReachSet(cards, d)| < |ReachSet(cards, c)|
  {
    ReachesDirect(cards, c, d);
    forall x | x in ReachSet(cards, d) ensures x in ReachSet(cards, c) {
      ReachesTransitive(cards, c, d, x);
    }
    assert d in ReachSet(cards, c) && d !in ReachSet(cards, d);
    StrictSubsetIsSmaller(ReachSet(cards, d), ReachSet(cards, c));
  }

  lemma StrictSubsetIsSmaller<T>(small: set<T>, big: set<T>)
    requires small < big
    ensures |small| < |big|
  {
    assert big == small + (big - small);
    assert big - small != {};
  }

  /** From any card that is not done one can walk down to one that is not done but whose dependencies are. */
  lemma LowestOpenCard(cards: Cards, ev: Evidence, c: CardId) returns (low: CardId)
    requires Acyclic(cards) && KnownPlan(cards) && c in cards && !Done(cards, ev, None, c)
    ensures low in cards && !Done(cards, ev, None, low) && DependenciesDone(cards, ev, None, low)
    decreases |ReachSet(cards, c)|
  {
    if DependenciesDone(cards, ev, None, c) {
      low := c;
    } else {
      var d :| d in cards[c].dependsOn && !Done(cards, ev, None, d);
      ReachSetShrinks(cards, c, d);
      low := LowestOpenCard(cards, ev, d);
    }
  }

  /** On an acyclic plan with known dependencies and gates, some card is next whenever a card is not done
      and none is in flight. */
  lemma QueueNeverWedges(cards: Cards, ev: Evidence, c: CardId)
    requires Acyclic(cards) && KnownPlan(cards)
    requires c in cards && !Done(cards, ev, None, c)
    requires forall x :: !InFlight(cards, ev, x)
    ensures Next(cards, ev, None).Some?
  {
    var low := LowestOpenCard(cards, ev, c);
    assert !InFlight(cards, ev, low);
    assert StatusOf(cards, ev, None, low) == READY;
    NextIsFirstReady(cards, ev, None, 0);
  }

  /** Dispatch and accept, card after card. */
  function Rounds(order: seq<CardId>, ok: Receipt): seq<Event> {
    if order == [] then []
    else
      var c := order[|order| - 1];
      Rounds(order[..|order| - 1], ok) + [DispatchNext(Line(c)), Verdict(c, ok)]
  }

  lemma AfterAppend(events: seq<Event>, d: Event, e: Event)
    ensures After(events + [d, e]) == Apply(Apply(After(events), d), e)
  {
    var all := events + [d, e];
    assert all[..|all| - 1] == events + [d];
    assert (events + [d])[..|events|] == events;
  }

  lemma RunAppend(cards: Cards, events: seq<Event>, d: Event, e: Event)
    requires Run(cards, events) && Step(cards, After(events), d)
    requires Step(cards, Apply(After(events), d), e)
    ensures Run(cards, events + [d, e])
  {
    hide Step, After;
    var dispatched, all := events + [d], events + [d, e];
    assert dispatched[..|dispatched| - 1] == events && dispatched[|dispatched| - 1] == d;
    assert all[..|all| - 1] == dispatched && all[|all| - 1] == e;
    assert After(dispatched) == Apply(After(events), d) by { AfterOne(events, d); }
    assert Run(cards, dispatched);
  }

  lemma AfterOne(events: seq<Event>, e: Event)
    ensures After(events + [e]) == Apply(After(events), e)
  {
    assert (events + [e])[..|events|] == events;
  }

  /** After the rounds exactly the listed cards are accepted and nothing is in flight. */
  lemma {:induction false} RoundsAcceptTheirCards(cards: Cards, order: seq<CardId>, ok: Receipt)
    requires ok.accepted
    ensures var ev := After(Rounds(order, ok));
            && NoSupersession(ev) && ev.envBlocks == map[]
            && (forall c :: c in ev.receipts <==> c in order)
            && (forall c :: c in order ==> ev.receipts[c] == ok)
            && (forall c :: Dispatched(ev.instructions, c) ==> c in order)
  {
    if order != [] {
      var init, c := order[..|order| - 1], order[|order| - 1];
      assert order == init + [c];
      RoundsAcceptTheirCards(cards, init, ok);
      AfterAppend(Rounds(init, ok), DispatchNext(Line(c)), Verdict(c, ok));
      forall x | Dispatched(After(Rounds(order, ok)).instructions, x) ensures x in order {
        DispatchedAfterLine(After(Rounds(init, ok)).instructions, Line(c), x);
      }
    }
  }

  lemma StatusAfterRounds(cards: Cards, order: seq<CardId>, ok: Receipt, c: CardId)
    requires ok.accepted
    ensures Settled(cards, After(Rounds(order, ok)), None, c) == if c in order then ACCEPTED else PENDING
  {
    RoundsAcceptTheirCards(cards, order, ok);
    NoSupersessionMeansNoSuccessor(After(Rounds(order, ok)).instructions, c);
  }

  ghost predicate Distinct(order: seq<CardId>) {
    forall i, j :: 0 <= i < j < |order| ==> order[i] != order[j]
  }

  function Elements(order: seq<CardId>): set<CardId> { set c | c in order }

  lemma {:induction false} DistinctCount(order: seq<CardId>)
    requires Distinct(order)
    ensures |Elements(order)| == |order|
  {
    if order != [] {
      var init, c := order[..|order| - 1], order[|order| - 1];
      DistinctCount(init);
      assert Elements(order) == Elements(init) + {c};
    }
  }

  /** The cards picked in the first k rounds that start from nothing. */
  function Picked(cards: Cards, k: nat, ok: Receipt): seq<CardId> {
    if k == 0 then []
    else
      var before := Picked(cards, k - 1, ok);
      match Next(cards, After(Rounds(before, ok)), None)
      case None => before
      case Some(c) => before + [c]
  }

  lemma OpenCardLeft(cards: Cards, before: seq<CardId>) returns (open: CardId)
    requires Distinct(before) && Elements(before) <= cards.Keys && |before| < |cards|
    ensures open in cards && open !in before
  {
    DistinctCount(before);
    assert Elements(before) != cards.Keys && Elements(before) <= cards.Keys;
    assert !(cards.Keys <= Elements(before));
    open :| open in cards.Keys && open !in Elements(before);
  }

  /** After the rounds for some of the cards, a card outside them whose dependencies are among them is next. */
  lemma NextRound(cards: Cards, before: seq<CardId>, ok: Receipt) returns (c: CardId)
    requires Acyclic(cards) && KnownPlan(cards) && ok.accepted
    requires Distinct(before) && Elements(before) <= cards.Keys && |before| < |cards|
    ensures Next(cards, After(Rounds(before, ok)), None) == Some(c)
    ensures c in cards && c !in before && forall d :: Edge(cards, c, d) ==> d in before
  {
    hide Next, After, Rounds;
    var ev := After(Rounds(before, ok));
    forall x ensures Settled(cards, ev, None, x) == if x in before then ACCEPTED else PENDING {
      StatusAfterRounds(cards, before, ok, x);
    }
    var open := OpenCardLeft(cards, before);
    QueueNeverWedges(cards, ev, open);
    c := Next(cards, ev, None).value;
    assert c in cards && StatusOf(cards, ev, None, c) == READY by { NextIsReady(cards, ev); }
    forall d | Edge(cards, c, d) ensures d in before { assert Done(cards, ev, None, d); }
  }

  lemma NextIsReady(cards: Cards, ev: Evidence)
    requires Next(cards, ev, None).Some?
    ensures var c := Next(cards, ev, None).value; c in cards && StatusOf(cards, ev, None, c) == READY
  {
    NextIsFirstReady(cards, ev, None, 0);
  }

  /** Alternating dispatch and accept is a run; every round up to the n-th picks a new card whose
      dependencies were picked before it. */
  lemma {:induction false} EachRoundPicksACard(cards: Cards, k: nat, ok: Receipt)
    requires Acyclic(cards) && KnownPlan(cards) && ok.accepted && k <= |cards|
    requires forall c :: c in cards ==> IsCardId(c)
    ensures var order := Picked(cards, k, ok);
            && |order| == k && Distinct(order) && Elements(order) <= cards.Keys
            && ListedAfterDependencies(cards, order)
            && Run(cards, Rounds(order, ok))
  {
    hide Next, After, Rounds, Run;
    if k == 0 {
      NoRoundsIsARun(cards, ok);
    } else {
      EachRoundPicksACard(cards, k - 1, ok);
      var before := Picked(cards, k - 1, ok);
      var c := NextRound(cards, before, ok);
      var order := before + [c];
      assert Elements(order) == Elements(before) + {c};
      forall i, d | 0 <= i < |order| && Edge(cards, order[i], d) ensures d in order[..i] {
        assert order[..i] == before[..i];
        if i == k - 1 { assert before[..i] == before; }
      }
      RoundIsTwoSteps(cards, before, c, ok);
    }
  }

  lemma NoRoundsIsARun(cards: Cards, ok: Receipt)
    ensures Run(cards, Rounds([], ok))
  {
  }

  lemma DispatchKeepsAcceptance(cards: Cards, ev: Evidence, c: CardId, ok: Receipt)
    requires NoSupersession(ev) && ev.envBlocks == map[] && ok.accepted
    ensures KeepsAcceptance(cards, ev, AddLine(ev, Line(c)))
    ensures KeepsAcceptance(cards, AddLine(ev, Line(c)), Apply(AddLine(ev, Line(c)), Verdict(c, ok)))
  {
    forall x ensures SupersededBy(ev.instructions, x) == None && SupersededBy(ev.instructions + [Line(c)], x) == None {
      NoSupersessionMeansNoSuccessor(ev.instructions, x);
      NoSupersessionMeansNoSuccessor(ev.instructions + [Line(c)], x);
    }
  }

  lemma RoundIsTwoSteps(cards: Cards, before: seq<CardId>, c: CardId, ok: Receipt)
    requires ok.accepted && c in cards && IsCardId(c)
    requires Run(cards, Rounds(before, ok))
    requires Next(cards, After(Rounds(before, ok)), None) == Some(c)
    ensures Run(cards, Rounds(before + [c], ok))
  {
    hide Next, After, Run, KeepsAcceptance;
    var ev, order := After(Rounds(before, ok)), before + [c];
    assert order[..|before|] == before;
    RoundsAcceptTheirCards(cards, before, ok);
    DispatchKeepsAcceptance(cards, ev, c, ok);
    DispatchedAfterLine(ev.instructions, Line(c), c);
    RunAppend(cards, Rounds(before, ok), DispatchNext(Line(c)), Verdict(c, ok));
  }

  /** n rounds accept all n cards, dependencies first, and then nothing is next. */
  lemma RoundsDrainThePlan(cards: Cards, ok: Receipt)
    requires Acyclic(cards) && KnownPlan(cards) && ok.accepted
    requires forall c :: c in cards ==> IsCardId(c)
    ensures var order := Picked(cards, |cards|, ok);
            var ev := After(Rounds(order, ok));
            && |order| == |cards| && Elements(order) == cards.Keys
            && ListedAfterDependencies(cards, order)
            && (forall c :: c in cards ==> Accepted(cards, ev, c))
            && Next(cards, ev, None) == None
  {
    hide Picked, Rounds, After, Run, Next;
    var order := Picked(cards, |cards|, ok);
    EachRoundPicksACard(cards, |cards|, ok);
    DistinctCount(order);
    if Elements(order) != cards.Keys { StrictSubsetIsSmaller(Elements(order), cards.Keys); }
    forall c | c in cards ensures Settled(cards, After(Rounds(order, ok)), None, c) == ACCEPTED {
      StatusAfterRounds(cards, order, ok, c);
      assert c in Elements(order);
    }
    NothingLeftIsNext(cards, After(Rounds(order, ok)));
  }

  lemma NothingLeftIsNext(cards: Cards, ev: Evidence)
    requires forall c :: c in cards ==> Accepted(cards, ev, c)
    ensures Next(cards, ev, None) == None
  {
    if Next(cards, ev, None).Some? { NextIsReady(cards, ev); }
  }

  // ----- accept sees the queue as it was before the card was started -----

  /** `later` is `earlier` plus lines about c alone, a receipt for c, and any environment record of c. */
  ghost predicate OnlyAdds(c: CardId, earlier: Evidence, later: Evidence, lines: seq<Instruction>, receipt: Receipt) {
    && later.instructions == earlier.instructions + lines
    && (forall line :: line in lines ==> line.target == c && line.kind != Supersede)
    && later.receipts == earlier.receipts[c := receipt]
    && (forall x :: x != c ==> (x in later.envBlocks <==> x in earlier.envBlocks))
    && (forall x :: x != c && x in later.envBlocks ==> later.envBlocks[x] == earlier.envBlocks[x])
  }

  lemma {:induction false} LinesOfAnotherCard(before: seq<Instruction>, lines: seq<Instruction>, c: CardId, x: CardId)
    requires forall line :: line in lines ==> line.target == c && line.kind != Supersede
    ensures SupersededBy(before + lines, x) == SupersededBy(before, x)
    ensures x != c ==> Attempts(before + lines, x) == Attempts(before, x)
    ensures x != c ==> (Dispatched(before + lines, x) <==> Dispatched(before, x))
  {
    if lines == [] {
      assert before + lines == before;
    } else {
      var init, last := lines[..|lines| - 1], lines[|lines| - 1];
      assert last in lines;
      assert (before + lines)[..|before + lines| - 1] == before + init;
      assert before + lines == (before + init) + [last];
      LinesOfAnotherCard(before, init, c, x);
      DispatchedAfterLine(before + init, last, x);
    }
  }

  lemma UnstartedSettles(cards: Cards, c: CardId, earlier: Evidence, later: Evidence,
                         lines: seq<Instruction>, receipt: Receipt, x: CardId)
    requires OnlyAdds(c, earlier, later, lines, receipt) && c !in earlier.receipts
    requires Settled(cards, earlier, None, c) == PENDING
    ensures x == c || !receipt.accepted || SupersededBy(earlier.instructions, x) != Some(c) ==>
              Settled(cards, later, Some(c), x) == Settled(cards, earlier, None, x)
    ensures x != c && c in cards && receipt.accepted && SupersededBy(earlier.instructions, x) == Some(c) ==>
              Settled(cards, later, Some(c), x) == SUPERSEDED != Settled(cards, earlier, None, x)
  {
    hide Attempts, SupersededBy, Dispatched, Less;
    LinesOfAnotherCard(earlier.instructions, lines, c, x);
  }

  lemma ReadyIsUnstarted(cards: Cards, ev: Evidence, c: CardId)
    requires Next(cards, ev, None) == Some(c)
    ensures c in cards && Settled(cards, ev, None, c) == PENDING && c !in ev.receipts
  {
    NextIsReady(cards, ev);
  }

  /** Hiding the card's own traces restores every earlier status exactly when its receipt does not, by
      being accepted, make it the accepted successor of another card. */
  lemma UnstartedRestoresStatuses(cards: Cards, c: CardId, earlier: Evidence, later: Evidence,
                                  lines: seq<Instruction>, receipt: Receipt)
    requires Next(cards, earlier, None) == Some(c)
    requires OnlyAdds(c, earlier, later, lines, receipt)
    ensures (forall x :: x in cards ==> StatusOf(cards, later, Some(c), x) == StatusOf(cards, earlier, None, x)) <==>
            !(receipt.accepted && exists t :: t in cards && t != c && SupersededBy(earlier.instructions, t) == Some(c))
  {
    hide Settled, SupersededBy, OnlyAdds, Next;
    ReadyIsUnstarted(cards, earlier, c);
    forall x
      ensures x == c || !receipt.accepted || SupersededBy(earlier.instructions, x) != Some(c) ==>
                Settled(cards, later, Some(c), x) == Settled(cards, earlier, None, x)
      ensures x != c && receipt.accepted && SupersededBy(earlier.instructions, x) == Some(c) ==>
                Settled(cards, later, Some(c), x) == SUPERSEDED != Settled(cards, earlier, None, x)
    {
      UnstartedSettles(cards, c, earlier, later, lines, receipt, x);
    }
    if receipt.accepted && exists t :: t in cards && t != c && SupersededBy(earlier.instructions, t) == Some(c) {
      var t :| t in cards && t != c && SupersededBy(earlier.instructions, t) == Some(c);
      assert StatusOf(cards, later, Some(c), t) != StatusOf(cards, earlier, None, t);
    }
  }

  /** The conditions of `cmd_accept`, given what was next before the card was started. */
  predicate AcceptAllowed(expected: Option<CardId>, card: CardId, receipt: Option<Receipt>,
                          forceOrder: bool, unverifiedOnMain: bool)
  {
    && receipt.Some? && receipt.value.accepted && receipt.value.scopeOk && receipt.value.controlFailed
    && (expected == Some(card) || forceOrder)
    && !unverifiedOnMain
  }

  /** A card that was next when dispatched passes accept's order condition without being forced, so accept
      then depends on its receipt and on main alone. */
  lemma AcceptFollowsNext(cards: Cards, c: CardId, earlier: Evidence, later: Evidence,
                          lines: seq<Instruction>, receipt: Receipt, unverifiedOnMain: bool)
    requires Next(cards, earlier, None) == Some(c)
    requires OnlyAdds(c, earlier, later, lines, receipt)
    requires forall t :: t in cards && t != c ==> SupersededBy(earlier.instructions, t) != Some(c)
    ensures Next(cards, later, Some(c)) == Some(c)
    ensures AcceptAllowed(Next(cards, later, Some(c)), c, Some(receipt), false, unverifiedOnMain) <==>
              receipt.accepted && receipt.scopeOk && receipt.controlFailed && !unverifiedOnMain
  {
    UnstartedRestoresStatuses(cards, c, earlier, later, lines, receipt);
    SameStatusesSameNext(cards, earlier, None, later, Some(c), 0);
  }

  /** Once c is accepted the card is READY in the queue without c: it is pending, not retired to c, and each of
      its dependencies is done or retired to c. */
  predicate Unlocked(cards: Cards, ev: Evidence, c: CardId, x: CardId)
    requires x in cards
  {
    && x != c && Settled(cards, ev, None, x) == PENDING && SupersededBy(ev.instructions, x) != Some(c)
    && forall d :: d in cards[x].dependsOn ==>
         Done(cards, ev, None, d) || (d in cards && d != c && SupersededBy(ev.instructions, d) == Some(c))
  }

  lemma ReadyOnceAccepted(cards: Cards, c: CardId, earlier: Evidence, later: Evidence,
                          lines: seq<Instruction>, receipt: Receipt, x: CardId)
    requires Next(cards, earlier, None) == Some(c) && x in cards
    requires OnlyAdds(c, earlier, later, lines, receipt) && receipt.accepted
    ensures StatusOf(cards, later, Some(c), x) == READY <==> x == c || Unlocked(cards, earlier, c, x)
  {
    hide Settled, SupersededBy, OnlyAdds, Next;
    ReadyIsUnstarted(cards, earlier, c);
    assert x == c ==> DependenciesDone(cards, earlier, None, c) by { NextIsReady(cards, earlier); }
    forall d
      ensures d == c || SupersededBy(earlier.instructions, d) != Some(c) ==>
                Settled(cards, later, Some(c), d) == Settled(cards, earlier, None, d)
      ensures d != c && SupersededBy(earlier.instructions, d) == Some(c) ==>
                Settled(cards, later, Some(c), d) == SUPERSEDED
    {
      UnstartedSettles(cards, c, earlier, later, lines, receipt, d);
    }
    assert forall d :: Done(cards, later, Some(c), d) <==>
      Done(cards, earlier, None, d) || (d in cards && d != c && SupersededBy(earlier.instructions, d) == Some(c));
    SettledNeverReady(cards, later, Some(c), x);
  }

  lemma SettledNeverReady(cards: Cards, ev: Evidence, u: Option<CardId>, x: CardId)
    ensures Settled(cards, ev, u, x) != READY
  {
  }

  /** A READY card of a known gate is next exactly when it precedes every READY card. */
  lemma NextIsTheFirst(cards: Cards, ev: Evidence, u: Option<CardId>, c: CardId)
    requires c in cards && cards[c].gate in GATES && StatusOf(cards, ev, u, c) == READY
    ensures Next(cards, ev, u) == Some(c) <==> forall x :: x in cards && StatusOf(cards, ev, u, x) == READY ==> Precedes(cards, c, x)
  {
    hide StatusOf, NextFrom;
    NextIsFirstReady(cards, ev, u, 0);
    var n := Next(cards, ev, u).value;
    if forall x :: x in cards && StatusOf(cards, ev, u, x) == READY ==> Precedes(cards, c, x) {
      assert Precedes(cards, n, c) && Precedes(cards, c, n);
      LeqAntisymmetric(n, c);
    }
  }

  lemma NextHasKnownGate(cards: Cards, ev: Evidence, c: CardId)
    requires Next(cards, ev, None) == Some(c)
    ensures c in cards && cards[c].gate in GATES
  {
    hide StatusOf, NextFrom;
    NextIsFirstReady(cards, ev, None, 0);
  }

  /** A card that was next when dispatched and has an accepted receipt passes accept's order condition exactly
      when it precedes every card that its acceptance unlocks by completing the cards retired to it. */
  lemma AcceptIsExact(cards: Cards, c: CardId, earlier: Evidence, later: Evidence,
                      lines: seq<Instruction>, receipt: Receipt, unverifiedOnMain: bool)
    requires Next(cards, earlier, None) == Some(c)
    requires OnlyAdds(c, earlier, later, lines, receipt)
    ensures c in cards
    ensures AcceptAllowed(Next(cards, later, Some(c)), c, Some(receipt), false, unverifiedOnMain) <==>
              && receipt.accepted && receipt.scopeOk && receipt.controlFailed && !unverifiedOnMain
              && forall x :: x in cards && Unlocked(cards, earlier, c, x) ==> Precedes(cards, c, x)
  {
    hide Next, StatusOf, Unlocked, OnlyAdds, Precedes;
    NextHasKnownGate(cards, earlier, c);
    if receipt.accepted {
      forall x | x in cards
        ensures StatusOf(cards, later, Some(c), x) == READY <==> x == c || Unlocked(cards, earlier, c, x)
      {
        ReadyOnceAccepted(cards, c, earlier, later, lines, receipt, x);
      }
      NextIsTheFirst(cards, later, Some(c), c);
      assert Precedes(cards, c, c) by { PrecedesItself(cards, c); }
    }
  }

  lemma PrecedesItself(cards: Cards, c: CardId)
    requires c in cards
    ensures Precedes(cards, c, c)
  {
    LeqReflexive(c);
  }

  /** The card after the one that is retired, the successor, and the retired card. */
  function SuccessorPlan(gate: string, x: CardId, c: CardId, t: CardId): Cards {
    map[x := Card(gate, [t], []), c := Card(gate, [], []), t := Card(gate, [], [])]
  }

  /** accept refuses a card that was next when dispatched, and passed: it is the successor of a card on which one
      with a smaller id depends. */
  lemma AcceptRefusesASuccessor(gate: string, x: CardId, c: CardId, t: CardId, receipt: Receipt)
    requires gate in GATES && IsCardId(x) && IsCardId(c) && IsCardId(t) && Less(x, c) && Less(c, t) && x != t
    requires receipt.accepted && receipt.scopeOk && receipt.controlFailed
    ensures var cards := SuccessorPlan(gate, x, c, t);
            var earlier := Evidence([Instruction(t, Supersede, 0, c)], map[], map[]);
            var later := Evidence(earlier.instructions + [Line(c)], map[c := receipt], map[]);
            && Next(cards, earlier, None) == Some(c)
            && !AcceptAllowed(Next(cards, later, Some(c)), c, Some(receipt), false, false)
  {
    hide Next, OnlyAdds, AcceptAllowed, Unlocked, StatusOf;
    var cards := SuccessorPlan(gate, x, c, t);
    var earlier := Evidence([Instruction(t, Supersede, 0, c)], map[], map[]);
    var later := Evidence(earlier.instructions + [Line(c)], map[c := receipt], map[]);
    SuccessorPlanNext(gate, x, c, t);
    assert OnlyAdds(c, earlier, later, [Line(c)], receipt) by { OneLineMore(c, earlier, receipt); }
    AcceptIsExact(cards, c, earlier, later, [Line(c)], receipt, false);
    assert !Precedes(cards, c, x) by { if Leq(c, x) { LeqAntisymmetric(c, x); } }
  }

  lemma OneLineMore(c: CardId, ev: Evidence, receipt: Receipt)
    requires c !in ev.receipts
    ensures OnlyAdds(c, ev, Evidence(ev.instructions + [Line(c)], ev.receipts[c := receipt], ev.envBlocks), [Line(c)], receipt)
  {
  }

  lemma SuccessorPlanNext(gate: string, x: CardId, c: CardId, t: CardId)
    requires gate in GATES && IsCardId(x) && IsCardId(c) && IsCardId(t) && Less(x, c) && Less(c, t) && x != t
    ensures var cards := SuccessorPlan(gate, x, c, t);
            var earlier := Evidence([Instruction(t, Supersede, 0, c)], map[], map[]);
            Next(cards, earlier, None) == Some(c) && Unlocked(cards, earlier, c, x)
  {
    hide Next, StatusOf, Leq, Settled, Unlocked;
    var cards := SuccessorPlan(gate, x, c, t);
    var earlier := Evidence([Instruction(t, Supersede, 0, c)], map[], map[]);
    SuccessorPlanStatuses(gate, x, c, t);
    LeqReflexive(c);
    forall y | y in cards && StatusOf(cards, earlier, None, y) == READY ensures Precedes(cards, c, y) {
      assert Leq(c, y);
    }
    FirstReadyIsNext(cards, earlier, c);
  }

  lemma SuccessorPlanStatuses(gate: string, x: CardId, c: CardId, t: CardId)
    requires IsCardId(x) && IsCardId(c) && IsCardId(t) && x != c && c != t && x != t
    ensures var cards := SuccessorPlan(gate, x, c, t);
            var earlier := Evidence([Instruction(t, Supersede, 0, c)], map[], map[]);
            && StatusOf(cards, earlier, None, c) == READY && StatusOf(cards, earlier, None, x) == PENDING
            && Unlocked(cards, earlier, c, x)
  {
    hide SupersededBy, Dispatched, Attempts;
    var cards := SuccessorPlan(gate, x, c, t);
    var line := Instruction(t, Supersede, 0, c);
    OneSupersession(line, t, c, x);
    OneSupersession(line, t, c, c);
    OneSupersession(line, t, c, t);
    assert t in cards[x].dependsOn;
  }

  lemma OneSupersession(line: Instruction, t: CardId, c: CardId, y: CardId)
    requires IsCardId(t) && c != "" && line == Instruction(t, Supersede, 0, c)
    ensures SupersededBy([line], y) == if y == t then Some(c) else None
    ensures !Dispatched([line], y)
  {
    assert [line][..0] == [];
  }

  lemma {:induction false} SameStatusesSameNext(cards: Cards, ev: Evidence, u: Option<CardId>,
                                                other: Evidence, v: Option<CardId>, k: nat)
    requires k <= |GATES|
    requires forall x :: x in cards ==> StatusOf(cards, ev, u, x) == StatusOf(cards, other, v, x)
    ensures NextFrom(cards, ev, u, k) == NextFrom(cards, other, v, k)
    decreases |GATES| - k
  {
    if k < |GATES| {
      assert ReadyIn(cards, ev, u, GATES[k]) == ReadyIn(cards, other, v, GATES[k]);
      SameStatusesSameNext(cards, ev, u, other, v, k + 1);
    }
  }
}
