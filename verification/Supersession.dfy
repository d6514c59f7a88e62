/** Runs in which cards are retired: a supersede line takes a card out of the overlap check at once
    (ops/gatecli.py), and completes it as soon as its successor is accepted (ops/gateverify.py), whether or
    not what it depends on is done. */
module Supersession {
  import opened Options
  import opened Plan
  import opened PyText
  import opened PathRules
  import opened Queue
  import opened TextOrder
  import opened Overlap
  import opened DispatchLoop

  ghost predicate IsDone(cards: Cards, ev: Evidence, c: CardId) { Done(cards, ev, None, c) }

  /** The card was started, or is done without having been started. */
  ghost predicate Underway(cards: Cards, ev: Evidence, c: CardId) { Started(ev, c) || IsDone(cards, ev, c) }

  /** Everything a card that is underway depends on is done. */
  ghost predicate OrderKept(cards: Cards, ev: Evidence) {
    forall c, d :: c in cards && Underway(cards, ev, c) && d in cards[c].dependsOn ==> IsDone(cards, ev, d)
  }

  lemma UnderwayHasDoneAncestors(cards: Cards, ev: Evidence, c: CardId, d: CardId)
    requires OrderKept(cards, ev) && c in cards && Underway(cards, ev, c) && Reaches(cards, c, d)
    ensures IsDone(cards, ev, d)
  {
    var done := set x | x in cards && IsDone(cards, ev, x);
    ReachesStaysIn(cards, c, d, done);
  }

  /** Two cards in flight that the overlap check compares never share a path. */
  lemma ComparedPairIsDisjoint(f: Folding, cards: Cards, ev: Evidence, retired: set<CardId>, a: CardId, b: CardId)
    requires OrderKept(cards, ev) && TidyPlan(f, cards) && NoProblems(f, cards, retired)
    requires {a, b} !! retired && a != b && InFlight(cards, ev, a) && InFlight(cards, ev, b)
    ensures !SharePath(f, cards, a, b)
  {
    hide Attempts, Tidy, Reaches, Leq;
    if Reaches(cards, a, b) { UnderwayHasDoneAncestors(cards, ev, a, b); }
    if Reaches(cards, b, a) { UnderwayHasDoneAncestors(cards, ev, b, a); }
    if SharePath(f, cards, a, b) {
      SharePathIsSymmetric(f, cards, a, b);
      LeqTotal(a, b);
      if Less(a, b) { SharedPathIsReported(f, cards, retired, a, b); } else { SharedPathIsReported(f, cards, retired, b, a); }
    }
  }

  lemma SharePathIsSymmetric(f: Folding, cards: Cards, a: CardId, b: CardId)
    requires a in cards && b in cards
    ensures SharePath(f, cards, a, b) <==> SharePath(f, cards, b, a)
  {
  }

  // ----- runs with supersede lines -----

  datatype Move = Act(event: Event) | Retire(line: Instruction)

  function Take(ev: Evidence, m: Move): Evidence {
    match m
    case Act(e) => Apply(ev, e)
    case Retire(line) => AddLine(ev, line)
  }

  ghost predicate Possible(cards: Cards, ev: Evidence, m: Move) {
    match m
    case Act(e) => Enabled(cards, ev, e)
    case Retire(line) => line.kind == Supersede
  }

  /** Nothing done stops being done, and a card that becomes done, or is verified, without having been underway
      has its dependencies done. */
  ghost predicate Careful(cards: Cards, ev: Evidence, after: Evidence) {
    && (forall x :: IsDone(cards, ev, x) ==> IsDone(cards, after, x))
    && (forall x, d :: x in cards && !Underway(cards, ev, x) && (IsDone(cards, after, x) || x in after.receipts) ==>
          d in cards[x].dependsOn ==> IsDone(cards, after, d))
  }

  function Outcome(moves: seq<Move>): Evidence {
    if moves == [] then EMPTY else Take(Outcome(moves[..|moves| - 1]), moves[|moves| - 1])
  }

  /** Every move of the run is possible. */
  ghost predicate CanHappen(cards: Cards, moves: seq<Move>) {
    moves != [] ==>
      CanHappen(cards, moves[..|moves| - 1]) && Possible(cards, Outcome(moves[..|moves| - 1]), moves[|moves| - 1])
  }

  ghost predicate AllCareful(cards: Cards, moves: seq<Move>) {
    moves != [] ==>
      && AllCareful(cards, moves[..|moves| - 1])
      && Careful(cards, Outcome(moves[..|moves| - 1]), Outcome(moves))
  }

  /** A card that a move starts was READY, or is verified by the move. */
  lemma StartedByMove(cards: Cards, ev: Evidence, m: Move, c: CardId)
    requires Possible(cards, ev, m) && Started(Take(ev, m), c) && !Started(ev, c)
    ensures c in Take(ev, m).receipts || (c in cards && StatusOf(cards, ev, None, c) == READY)
  {
    hide Next, StatusOf, Dispatched, NextFrom;
    match m
    case Act(DispatchNext(line)) => DispatchedAfterLine(ev.instructions, line, c); NextIsReady(cards, ev);
    case Act(Note(line)) => DispatchedAfterLine(ev.instructions, line, c);
    case Act(_) =>
    case Retire(line) => DispatchedAfterLine(ev.instructions, line, c);
  }

  lemma VerifiedIsStarted(ev: Evidence, x: CardId)
    requires x in ev.receipts
    ensures Started(ev, x)
  {
  }

  /** Exactly when a move keeps the order: no card underway depends on one that the move takes back, and
      what it completes or verifies without a start has its dependencies done. */
  lemma MoveIsExact(cards: Cards, ev: Evidence, m: Move)
    requires OrderKept(cards, ev) && Possible(cards, ev, m)
    ensures var after := Take(ev, m);
            OrderKept(cards, after) <==>
              && (forall x, d :: x in cards && Underway(cards, after, x) && d in cards[x].dependsOn ==>
                    IsDone(cards, ev, d) ==> IsDone(cards, after, d))
              && (forall x, d :: x in cards && !Underway(cards, ev, x) && (IsDone(cards, after, x) || x in after.receipts) ==>
                    d in cards[x].dependsOn ==> IsDone(cards, after, d))
  {
    hide Possible, Take, Started;
    var after := Take(ev, m);
    forall x ensures x in after.receipts ==> Started(after, x) { if x in after.receipts { VerifiedIsStarted(after, x); } }
    forall x
      ensures Started(after, x) && !Started(ev, x) ==>
                x in after.receipts || (x in cards && StatusOf(cards, ev, None, x) == READY)
    {
      if Started(after, x) && !Started(ev, x) { StartedByMove(cards, ev, m, x); }
    }
    hide StatusOf;
    forall x, d | x in cards && Started(after, x) && !Started(ev, x) && x !in after.receipts && d in cards[x].dependsOn
      ensures IsDone(cards, ev, d)
    {
      ReadyHasDoneDependencies(cards, ev, x);
    }
  }

  lemma ReadyHasDoneDependencies(cards: Cards, ev: Evidence, c: CardId)
    requires c in cards && StatusOf(cards, ev, None, c) == READY
    ensures forall d :: d in cards[c].dependsOn ==> IsDone(cards, ev, d)
  {
    SettledIsNotReady(cards, ev, c);
  }

  lemma {:induction false} CarefulRunKeepsOrder(cards: Cards, moves: seq<Move>)
    requires CanHappen(cards, moves) && AllCareful(cards, moves)
    ensures OrderKept(cards, Outcome(moves))
  {
    hide Possible, Careful, Take, IsDone;
    if moves == [] {
      NothingIsUnderway(cards);
    } else {
      var before, m := moves[..|moves| - 1], moves[|moves| - 1];
      CarefulRunKeepsOrder(cards, before);
      MoveIsExact(cards, Outcome(before), m);
      CarefulMoveKeepsOrder(cards, Outcome(before), m);
    }
  }

  lemma NothingIsUnderway(cards: Cards)
    ensures OrderKept(cards, EMPTY)
  {
  }

  lemma CarefulMoveKeepsOrder(cards: Cards, ev: Evidence, m: Move)
    requires OrderKept(cards, ev) && Possible(cards, ev, m) && Careful(cards, ev, Take(ev, m))
    ensures OrderKept(cards, Take(ev, m))
  {
    hide Possible, Take, Started, IsDone;
    MoveIsExact(cards, ev, m);
  }

  // ----- workers and retired cards -----

  /** No card in flight shares a path with this one. */
  ghost predicate Apart(f: Folding, cards: Cards, ev: Evidence, c: CardId)
    requires c in cards
  {
    forall x :: x != c && InFlight(cards, ev, x) ==> !SharePath(f, cards, c, x)
  }

  /** No card in flight shares a path with this one if either of the two is retired. */
  ghost predicate ApartFromRetired(f: Folding, cards: Cards, ev: Evidence, c: CardId)
    requires c in cards
  {
    forall x :: x != c && InFlight(cards, ev, x) && !({c, x} !! SupersededIds(ev.instructions)) ==> !SharePath(f, cards, c, x)
  }

  /** No two cards in flight share a path. */
  ghost predicate AllApart(f: Folding, cards: Cards, ev: Evidence) {
    forall c :: InFlight(cards, ev, c) ==> Apart(f, cards, ev, c)
  }

  /** The overlap check leaves nothing but the pairs with a retired card. */
  lemma ApartIsExact(f: Folding, cards: Cards, ev: Evidence, c: CardId)
    requires OrderKept(cards, ev) && TidyPlan(f, cards) && NoProblems(f, cards, SupersededIds(ev.instructions))
    requires InFlight(cards, ev, c)
    ensures Apart(f, cards, ev, c) <==> ApartFromRetired(f, cards, ev, c)
  {
    hide InFlight, SharePath, NoProblems, TidyPlan, OrderKept, SupersededIds;
    var retired := SupersededIds(ev.instructions);
    InFlightIsACard(cards, ev, c);
    forall x | x != c && InFlight(cards, ev, x) && {c, x} !! retired ensures x in cards && !SharePath(f, cards, c, x) {
      InFlightIsACard(cards, ev, x);
      ComparedPairIsDisjoint(f, cards, ev, retired, c, x);
    }
  }

  lemma InFlightIsACard(cards: Cards, ev: Evidence, x: CardId)
    requires InFlight(cards, ev, x)
    ensures x in cards
  {
  }

  /** With supersede lines: after every run of careful moves, on a tidy plan without overlap problems, no two
      cards in flight share a path exactly when none does in a pair with a retired card. */
  lemma WorkersAreApartExactly(f: Folding, cards: Cards, moves: seq<Move>)
    requires CanHappen(cards, moves) && AllCareful(cards, moves) && TidyPlan(f, cards)
    requires NoProblems(f, cards, SupersededIds(Outcome(moves).instructions))
    ensures var ev := Outcome(moves);
            AllApart(f, cards, ev) <==> forall c :: InFlight(cards, ev, c) ==> c in cards && ApartFromRetired(f, cards, ev, c)
  {
    hide CanHappen, AllCareful, InFlight, NoProblems, TidyPlan, Apart, ApartFromRetired, OrderKept;
    CarefulRunKeepsOrder(cards, moves);
    forall c | InFlight(cards, Outcome(moves), c)
      ensures c in cards && (Apart(f, cards, Outcome(moves), c) <==> ApartFromRetired(f, cards, Outcome(moves), c))
    {
      InFlightIsACard(cards, Outcome(moves), c);
      ApartIsExact(f, cards, Outcome(moves), c);
    }
  }

  /** Two cards in flight that were not retired never share a path. */
  lemma UnretiredWorkersNeverShareAPath(f: Folding, cards: Cards, moves: seq<Move>, a: CardId, b: CardId)
    requires CanHappen(cards, moves) && AllCareful(cards, moves) && TidyPlan(f, cards)
    requires NoProblems(f, cards, SupersededIds(Outcome(moves).instructions))
    requires a != b && {a, b} !! SupersededIds(Outcome(moves).instructions)
    requires InFlight(cards, Outcome(moves), a) && InFlight(cards, Outcome(moves), b)
    ensures !SharePath(f, cards, a, b)
  {
    hide CanHappen, AllCareful, InFlight, NoProblems, TidyPlan, SharePath, SupersededIds;
    CarefulRunKeepsOrder(cards, moves);
    ComparedPairIsDisjoint(f, cards, Outcome(moves), SupersededIds(Outcome(moves).instructions), a, b);
  }

  /** The cards whose supersession has taken effect. */
  ghost function SupersededNow(cards: Cards, ev: Evidence): set<CardId> {
    set c | c in cards && Settled(cards, ev, None, c) == SUPERSEDED
  }

  /** An overlap check that skips only cards whose status is SUPERSEDED keeps all workers apart, retired or not:
      what it leaves out is never in flight. */
  lemma SkippingOnlySupersededIsSafe(f: Folding, cards: Cards, moves: seq<Move>)
    requires CanHappen(cards, moves) && AllCareful(cards, moves) && TidyPlan(f, cards)
    requires NoProblems(f, cards, SupersededNow(cards, Outcome(moves)))
    ensures AllApart(f, cards, Outcome(moves))
  {
    hide CanHappen, AllCareful, NoProblems, TidyPlan, SharePath, Outcome, Settled;
    var ev := Outcome(moves);
    CarefulRunKeepsOrder(cards, moves);
    forall c, x | x != c && InFlight(cards, ev, c) && InFlight(cards, ev, x)
      ensures c in cards && x in cards && !SharePath(f, cards, c, x)
    {
      ComparedPairIsDisjoint(f, cards, ev, SupersededNow(cards, ev), c, x);
    }
  }

  /** One dispatch: on a plan without overlap problems, with workers apart, handing out the next card keeps them
      apart exactly when it shares no path with a card in flight while either of the two is retired. */
  lemma DispatchIsExact(f: Folding, cards: Cards, ev: Evidence, line: Instruction)
    requires OrderKept(cards, ev) && Enabled(cards, ev, DispatchNext(line)) && Addressed(line)
    requires TidyPlan(f, cards) && NoProblems(f, cards, SupersededIds(ev.instructions)) && AllApart(f, cards, ev)
    ensures line.target in cards
    ensures AllApart(f, cards, AddLine(ev, line)) <==> ApartFromRetired(f, cards, ev, line.target)
  {
    hide NoProblems, TidyPlan, SharePath, OrderKept, SupersededIds, InFlight, Enabled, Addressed, Apart;
    var c, after := line.target, AddLine(ev, line);
    DispatchKeepsOrder(cards, ev, line);
    forall x ensures InFlight(cards, after, x) <==> InFlight(cards, ev, x) || x == c { DispatchFlies(cards, ev, line, x); }
    ApartIsExact(f, cards, after, c);
    assert ApartFromRetired(f, cards, after, c) <==> ApartFromRetired(f, cards, ev, c);
    OneMoreApart(f, cards, ev, after, c);
  }

  lemma OneMoreApart(f: Folding, cards: Cards, ev: Evidence, after: Evidence, c: CardId)
    requires c in cards && AllApart(f, cards, ev)
    requires forall x :: InFlight(cards, after, x) <==> InFlight(cards, ev, x) || x == c
    ensures AllApart(f, cards, after) <==> Apart(f, cards, after, c)
  {
    hide InFlight, SharePath;
    if Apart(f, cards, after, c) {
      forall a, x | x != a && InFlight(cards, after, a) && InFlight(cards, after, x)
        ensures a in cards && x in cards && !SharePath(f, cards, a, x)
      {
        InFlightIsACard(cards, after, a);
        InFlightIsACard(cards, after, x);
        SharePathIsSymmetric(f, cards, a, x);
        if a != c && x != c { assert Apart(f, cards, ev, a); }
      }
    }
  }

  lemma DispatchKeepsOrder(cards: Cards, ev: Evidence, line: Instruction)
    requires OrderKept(cards, ev) && Enabled(cards, ev, DispatchNext(line)) && Addressed(line)
    ensures line.target in cards && OrderKept(cards, AddLine(ev, line))
    ensures SupersededIds(AddLine(ev, line).instructions) == SupersededIds(ev.instructions)
  {
    hide IsDone, Started, Next;
    NextIsReady(cards, ev);
    ReadyHasDoneDependencies(cards, ev, line.target);
    forall x
      ensures Started(AddLine(ev, line), x) <==> Started(ev, x) || x == line.target
      ensures IsDone(cards, AddLine(ev, line), x) <==> IsDone(cards, ev, x)
    {
      DispatchSettles(cards, ev, line, x);
      DispatchedAfterLine(ev.instructions, line, x);
    }
    SameIds(ev, line);
  }

  lemma SameIds(ev: Evidence, line: Instruction)
    requires line.kind != Supersede
    ensures SupersededIds(AddLine(ev, line).instructions) == SupersededIds(ev.instructions)
  {
    forall l ensures l in AddLine(ev, line).instructions <==> l in ev.instructions || l == line {}
  }

  /** Dispatching a READY card changes no other status, and completes nothing. */
  lemma DispatchSettles(cards: Cards, ev: Evidence, line: Instruction, x: CardId)
    requires Enabled(cards, ev, DispatchNext(line)) && Addressed(line)
    ensures x != line.target ==> Settled(cards, AddLine(ev, line), None, x) == Settled(cards, ev, None, x)
    ensures Settled(cards, AddLine(ev, line), None, line.target) in {IN_PROGRESS, BLOCKED_ENV}
    ensures IsDone(cards, AddLine(ev, line), x) <==> IsDone(cards, ev, x)
    ensures Started(AddLine(ev, line), x) <==> Started(ev, x) || x == line.target
  {
    hide Dispatched, Less, Next, NextFrom;
    var after := AddLine(ev, line);
    NextIsReady(cards, ev);
    assert after.instructions[..|ev.instructions|] == ev.instructions;
    DispatchedAfterLine(ev.instructions, line, x);
    DispatchedAfterLine(ev.instructions, line, line.target);
    if x != line.target { OtherAttempts(ev.instructions, line, x); }
  }

  lemma OtherAttempts(lines: seq<Instruction>, line: Instruction, x: CardId)
    requires line.target != x
    ensures Attempts(lines + [line], x) == Attempts(lines, x)
  {
    assert (lines + [line])[..|lines|] == lines;
  }

  lemma DispatchFlies(cards: Cards, ev: Evidence, line: Instruction, x: CardId)
    requires Enabled(cards, ev, DispatchNext(line)) && Addressed(line)
    ensures InFlight(cards, AddLine(ev, line), x) <==> InFlight(cards, ev, x) || x == line.target
  {
    hide Settled, Next, NextFrom, StatusOf;
    NextIsReady(cards, ev);
    DispatchSettles(cards, ev, line, x);
  }

  // ----- exactly when a supersession keeps the order -----

  /** The card's own receipt completes it. */
  predicate OwnDone(ev: Evidence, c: CardId) {
    HasAcceptedReceipt(ev, c) && !(EnvBlockIsCurrent(ev, c) && Dispatched(ev.instructions, c))
  }

  lemma DoneIsOwnOrSuccessors(cards: Cards, ev: Evidence, c: CardId)
    ensures IsDone(cards, ev, c) <==> c in cards && (SuccessorAccepted(cards, ev, c) || OwnDone(ev, c))
  {
    hide Attempts, Dispatched, SupersededBy, Less;
  }

  predicate RetiresTo(line: Instruction, t: CardId, s: CardId) {
    line.kind == Supersede && line.target == t && line.successor == s && s != "" && IsCardId(t)
  }

  lemma DoneAfterRetire(cards: Cards, ev: Evidence, line: Instruction, t: CardId, s: CardId, x: CardId)
    requires RetiresTo(line, t, s)
    ensures Started(AddLine(ev, line), x) <==> Started(ev, x)
    ensures x != t ==> (IsDone(cards, AddLine(ev, line), x) <==> IsDone(cards, ev, x))
    ensures IsDone(cards, AddLine(ev, line), t) <==>
              t in cards && ((s in cards && HasAcceptedReceipt(ev, s)) || OwnDone(ev, t))
  {
    hide Dispatched, Less, IsDone;
    var after := AddLine(ev, line);
    assert after.instructions[..|ev.instructions|] == ev.instructions;
    DispatchedAfterLine(ev.instructions, line, x);
    DispatchedAfterLine(ev.instructions, line, t);
    DoneIsOwnOrSuccessors(cards, ev, x);
    DoneIsOwnOrSuccessors(cards, after, x);
    DoneIsOwnOrSuccessors(cards, after, t);
  }

  /** Retiring a card to a successor that is already accepted keeps the order exactly when everything the
      retired card depends on is done. */
  lemma RetiringIsExact(cards: Cards, ev: Evidence, line: Instruction, t: CardId, s: CardId)
    requires OrderKept(cards, ev) && RetiresTo(line, t, s) && t in cards && s in cards && HasAcceptedReceipt(ev, s)
    ensures OrderKept(cards, AddLine(ev, line)) <==>
              forall d :: d in cards[t].dependsOn ==> d == t || IsDone(cards, ev, d)
  {
    hide Started, IsDone, HasAcceptedReceipt, RetiresTo;
    forall x
      ensures Started(AddLine(ev, line), x) <==> Started(ev, x)
      ensures x != t ==> (IsDone(cards, AddLine(ev, line), x) <==> IsDone(cards, ev, x))
    {
      DoneAfterRetire(cards, ev, line, t, s, x);
    }
    DoneAfterRetire(cards, ev, line, t, s, t);
    assert Underway(cards, AddLine(ev, line), t);
  }

  /** Retiring a card to a successor that is not accepted keeps the order exactly when its own receipt still
      completes it, or no card underway depends on it. */
  lemma RetiringEarlyIsExact(cards: Cards, ev: Evidence, line: Instruction, t: CardId, s: CardId)
    requires OrderKept(cards, ev) && RetiresTo(line, t, s) && t in cards && !(s in cards && HasAcceptedReceipt(ev, s))
    ensures OrderKept(cards, AddLine(ev, line)) <==>
              OwnDone(ev, t) ||
              forall x :: x in cards && t in cards[x].dependsOn ==> !Started(ev, x) && (x == t || !IsDone(cards, ev, x))
  {
    hide Started, IsDone, HasAcceptedReceipt, RetiresTo;
    forall x
      ensures Started(AddLine(ev, line), x) <==> Started(ev, x)
      ensures x != t ==> (IsDone(cards, AddLine(ev, line), x) <==> IsDone(cards, ev, x))
    {
      DoneAfterRetire(cards, ev, line, t, s, x);
    }
    DoneAfterRetire(cards, ev, line, t, s, t);
    if OwnDone(ev, t) {
      DoneIsOwnOrSuccessors(cards, ev, t);
    }
  }

  lemma DoneAfterAccept(cards: Cards, ev: Evidence, c: CardId, r: Receipt, x: CardId)
    requires c in cards && Accepts(ev, c, r)
    ensures var after := Apply(ev, Verdict(c, r));
            && (Started(after, x) <==> Started(ev, x) || x == c)
            && (IsDone(cards, after, x) <==>
                  x in cards && (x == c || SupersededBy(ev.instructions, x) == Some(c) || IsDone(cards, ev, x)))
  {
    hide Dispatched, Less, IsDone, SupersededBy;
    var after := Apply(ev, Verdict(c, r));
    DoneIsOwnOrSuccessors(cards, ev, x);
    DoneIsOwnOrSuccessors(cards, after, x);
    assert SuccessorAccepted(cards, after, x) <==>
      SupersededBy(ev.instructions, x) == Some(c) || SuccessorAccepted(cards, ev, x);
    assert x == c ==> OwnDone(after, x);
    assert x != c ==> (OwnDone(after, x) <==> OwnDone(ev, x));
  }

  /** What c and the cards retired to it depend on is done, or is done as soon as c is accepted. */
  ghost predicate SuccessorOrderKept(cards: Cards, ev: Evidence, c: CardId) {
    forall t, d :: t in cards && (t == c || SupersededBy(ev.instructions, t) == Some(c)) && d in cards[t].dependsOn ==>
      d in cards && (d == c || SupersededBy(ev.instructions, d) == Some(c) || IsDone(cards, ev, d))
  }

  /** Accepting a card, dispatched or not, keeps the order exactly when it and every card it is the successor of
      have their dependencies done by then. */
  lemma AcceptingIsExact(cards: Cards, ev: Evidence, c: CardId, r: Receipt)
    requires OrderKept(cards, ev) && c in cards && Accepts(ev, c, r)
    ensures OrderKept(cards, Apply(ev, Verdict(c, r))) <==> SuccessorOrderKept(cards, ev, c)
  {
    hide Started, IsDone, SupersededBy, Accepts, Dispatched;
    var after := Apply(ev, Verdict(c, r));
    forall x
      ensures Started(after, x) <==> Started(ev, x) || x == c
      ensures IsDone(cards, after, x) <==>
                x in cards && (x == c || SupersededBy(ev.instructions, x) == Some(c) || IsDone(cards, ev, x))
    {
      DoneAfterAccept(cards, ev, c, r, x);
    }
    if SuccessorOrderKept(cards, ev, c) {
      forall x, d | x in cards && Underway(cards, after, x) && d in cards[x].dependsOn ensures IsDone(cards, after, d) {
        if !Underway(cards, ev, x) { assert x == c || SupersededBy(ev.instructions, x) == Some(c); }
        DoneIsOwnOrSuccessors(cards, ev, d);
      }
    }
    if OrderKept(cards, after) {
      forall t, d | t in cards && (t == c || SupersededBy(ev.instructions, t) == Some(c)) && d in cards[t].dependsOn
        ensures d in cards && (d == c || SupersededBy(ev.instructions, d) == Some(c) || IsDone(cards, ev, d))
      {
        assert Underway(cards, after, t) && IsDone(cards, after, d);
      }
    }
  }

  // ----- a chain through a retired card does not order -----

  /** The n-th card id. */
  function Id(n: nat): CardId
    requires n < 10
  {
    "TC-00" + [Digit(n)]
  }

  lemma {:induction false} SharedStart(p: string, a: string, b: string)
    ensures Leq(p + a, p + b) <==> Leq(a, b)
  {
    if p == "" {
      assert p + a == a && p + b == b;
    } else {
      SharedStart(p[1..], a, b);
      assert (p + a)[1..] == p[1..] + a && (p + b)[1..] == p[1..] + b;
    }
  }

  lemma IdsAscend(m: nat, n: nat)
    requires m < 10 && n < 10
    ensures IsCardId(Id(m)) && (Id(m) == Id(n) <==> m == n) && (Leq(Id(m), Id(n)) <==> m <= n)
  {
    assert Id(m)[0] == 'T' && Id(m)[5] == Digit(m) && Id(n)[5] == Digit(n);
    SharedStart("TC-00", [Digit(m)], [Digit(n)]);
    assert [Digit(m)][1..] == "" && [Digit(n)][1..] == "";
  }

  /** The ids are ids and distinct. */
  lemma Ids()
    ensures IsCardId(Id(1)) && IsCardId(Id(2)) && IsCardId(Id(3)) && IsCardId(Id(4))
    ensures Id(1) != Id(2) && Id(1) != Id(3) && Id(1) != Id(4) && Id(2) != Id(3) && Id(2) != Id(4) && Id(3) != Id(4)
  {
    IdsAscend(1, 2);
    IdsAscend(2, 3);
    IdsAscend(3, 4);
    IdsAscend(4, 1);
    IdsAscend(1, 3);
    IdsAscend(2, 4);
  }

  /** The card after the retired one, the retired one, and the card before it; the successor is free. */
  function Chain(path: string): Cards {
    map[Id(1) := Card("G0", [], []), Id(2) := Card("G0", [], [path]),
        Id(3) := Card("G0", [Id(2)], []), Id(4) := Card("G0", [Id(3)], [path])]
  }

  const RETIRE := Instruction(Id(3), Supersede, 0, Id(1))

  function ChainMoves(ok: Receipt): seq<Move> {
    [Act(DispatchNext(Line(Id(1)))), Act(Verdict(Id(1), ok)), Retire(RETIRE), Act(DispatchNext(Line(Id(2)))),
     Act(DispatchNext(Line(Id(4))))]
  }

  lemma OutcomeOne(moves: seq<Move>, m: Move)
    ensures Outcome(moves + [m]) == Take(Outcome(moves), m)
  {
    assert (moves + [m])[..|moves|] == moves;
  }

  lemma CanHappenOne(cards: Cards, moves: seq<Move>, m: Move)
    requires CanHappen(cards, moves) && Possible(cards, Outcome(moves), m)
    ensures CanHappen(cards, moves + [m])
  {
    hide Possible, Outcome;
    assert (moves + [m])[..|moves|] == moves;
  }

  /** What the five lines and the receipt say, after the first n moves. */
  lemma ChainOutcome(ok: Receipt, n: nat)
    requires n <= 5
    ensures Outcome(ChainMoves(ok)[..n]) ==
            Evidence([Line(Id(1)), RETIRE, Line(Id(2)), Line(Id(4))][..if n <= 1 then n else n - 1],
                     if n >= 2 then map[Id(1) := ok] else map[], map[])
  {
    hide Id, Outcome;
    Ids();
    var moves, lines := ChainMoves(ok), [Line(Id(1)), RETIRE, Line(Id(2)), Line(Id(4))];
    if n == 0 {
      NoMoves();
      assert moves[..0] == [] && lines[..0] == [];
    } else {
      ChainOutcome(ok, n - 1);
      assert moves[..n] == moves[..n - 1] + [moves[n - 1]];
      OutcomeOne(moves[..n - 1], moves[n - 1]);
      var k := if n <= 1 then n else n - 1;
      if n != 2 { assert lines[..k] == lines[..k - 1] + [lines[k - 1]]; }
    }
  }

  lemma NoMoves()
    ensures Outcome([]) == EMPTY
    ensures forall cards :: CanHappen(cards, [])
  {
  }

  /** Which cards the first k lines dispatch, and to whom they retire the third. */
  lemma ChainLines(k: nat, x: CardId)
    requires k <= 4
    ensures var lines := [Line(Id(1)), RETIRE, Line(Id(2)), Line(Id(4))][..k];
            && (Dispatched(lines, x) <==> (k >= 1 && x == Id(1)) || (k >= 3 && x == Id(2)) || (k >= 4 && x == Id(4)))
            && SupersededBy(lines, x) == if k >= 2 && x == Id(3) then Some(Id(1)) else None
  {
    hide Id, Dispatched;
    Ids();
    var lines := [Line(Id(1)), RETIRE, Line(Id(2)), Line(Id(4))];
    if k == 0 {
      assert lines[..0] == [];
      NothingDispatched(x);
    } else {
      ChainLines(k - 1, x);
      assert lines[..k] == lines[..k - 1] + [lines[k - 1]];
      assert lines[..k][..k - 1] == lines[..k - 1];
      DispatchedAfterLine(lines[..k - 1], lines[k - 1], x);
    }
  }

  /** The status of each card when the first k lines are there and, maybe, the successor's receipt. */
  function ChainStatus(k: nat, received: bool, x: CardId): Status {
    if x == Id(1) then (if received then ACCEPTED else if k >= 1 then IN_PROGRESS else READY)
    else if x == Id(2) then (if k >= 3 then IN_PROGRESS else READY)
    else if x == Id(3) then (if k >= 2 && received then SUPERSEDED else PENDING)
    else if k >= 4 then IN_PROGRESS
    else if k >= 2 && received then READY else PENDING
  }

  lemma ChainSettled(path: string, ok: Receipt, k: nat, received: bool, x: CardId)
    requires k <= 4 && ok.accepted && x in Chain(path)
    ensures var ev := Evidence([Line(Id(1)), RETIRE, Line(Id(2)), Line(Id(4))][..k], if received then map[Id(1) := ok] else map[], map[]);
            var settled, s := Settled(Chain(path), ev, None, x), ChainStatus(k, received, x);
            settled == if s == READY then PENDING else s
  {
    hide Id, Dispatched, SupersededBy, Attempts;
    Ids();
    ChainLines(k, x);
  }

  lemma ChainStatuses(path: string, ok: Receipt, k: nat, received: bool)
    requires k <= 4 && ok.accepted
    ensures var ev := Evidence([Line(Id(1)), RETIRE, Line(Id(2)), Line(Id(4))][..k], if received then map[Id(1) := ok] else map[], map[]);
            forall x :: x in Chain(path) ==> StatusOf(Chain(path), ev, None, x) == ChainStatus(k, received, x)
  {
    hide Id, Settled;
    Ids();
    var cards := Chain(path);
    var ev := Evidence([Line(Id(1)), RETIRE, Line(Id(2)), Line(Id(4))][..k], if received then map[Id(1) := ok] else map[], map[]);
    forall x | x in cards ensures StatusOf(cards, ev, None, x) == ChainStatus(k, received, x) {
      ChainSettled(path, ok, k, received, x);
      ChainSettled(path, ok, k, received, Id(2));
      ChainSettled(path, ok, k, received, Id(3));
      assert Id(2) in cards[Id(3)].dependsOn && Id(3) in cards[Id(4)].dependsOn;
    }
  }

  /** Which card is next in each of the four situations of the run. */
  lemma ChainNext(path: string, ok: Receipt, k: nat, received: bool, c: CardId)
    requires ok.accepted
    requires (k, received, c) in {(0, false, Id(1)), (2, true, Id(2)), (3, true, Id(4))}
    ensures var ev := Evidence([Line(Id(1)), RETIRE, Line(Id(2)), Line(Id(4))][..k], if received then map[Id(1) := ok] else map[], map[]);
            Next(Chain(path), ev, None) == Some(c)
  {
    hide Id, StatusOf, Next, Precedes, Leq;
    Ids();
    var cards := Chain(path);
    var ev := Evidence([Line(Id(1)), RETIRE, Line(Id(2)), Line(Id(4))][..k], if received then map[Id(1) := ok] else map[], map[]);
    ChainStatuses(path, ok, k, received);
    forall x | x in cards && StatusOf(cards, ev, None, x) == READY ensures Precedes(cards, c, x) {
      ChainPrecedes(path, k, received, c, x);
    }
    assert "G0" in GATES;
    FirstReadyIsNext(cards, ev, c);
  }

  lemma ChainPrecedes(path: string, k: nat, received: bool, c: CardId, x: CardId)
    requires (k, received, c) in {(0, false, Id(1)), (2, true, Id(2)), (3, true, Id(4))}
    requires x in Chain(path) && ChainStatus(k, received, x) == READY
    ensures Precedes(Chain(path), c, x)
  {
    hide Id;
    Ids();
    hide Leq;
    forall m: nat, n: nat | m <= n < 10 ensures Leq(Id(m), Id(n)) { IdsAscend(m, n); }
    assert Leq(c, x);
  }

  lemma ChainHasNoProblem(f: Folding, path: string)
    ensures NoProblems(f, Chain(path), {Id(3)})
    ensures Reaches(Chain(path), Id(4), Id(2))
  {
    hide Id;
    Ids();
    var cards := Chain(path);
    assert Edge(cards, Id(4), Id(3)) && Edge(cards, Id(3), Id(2));
    ReachesDirect(cards, Id(4), Id(3));
    ReachesDirect(cards, Id(3), Id(2));
    ReachesTransitive(cards, Id(4), Id(3), Id(2));
    hide Reaches, ClaimsOverlap;
    forall p ensures !Races(f, cards, {Id(3)}, p) {
      assert p.a in cards && p.x in cards[p.a].writePaths ==> p.a == Id(2) || p.a == Id(4);
      assert p.b in cards && p.y in cards[p.b].writePaths ==> p.b == Id(2) || p.b == Id(4);
    }
  }

  /** On a plan without overlap problems: once the card between two others is retired to an accepted successor,
      next_card hands out both ends of the chain, which write the same paths. No move of the run but the
      retirement breaks the order. */
  lemma RetiredChainRaces(f: Folding, path: string, ok: Receipt)
    requires ok.accepted && PathMatches(f, path, path)
    ensures var cards, moves := Chain(path), ChainMoves(ok);
            var before, after := Outcome(moves[..4]), Outcome(moves);
            && NoProblems(f, cards, SupersededIds(after.instructions))
            && {Id(2), Id(4)} !! SupersededIds(after.instructions)
            && CanHappen(cards, moves) && Next(cards, before, None) == Some(Id(4))
            && InFlight(cards, after, Id(2)) && InFlight(cards, after, Id(4)) && SharePath(f, cards, Id(2), Id(4))
    ensures OrderKept(Chain(path), Outcome(ChainMoves(ok)[..2]))
    ensures !OrderKept(Chain(path), Outcome(ChainMoves(ok)[..3]))
  {
    hide Id, Outcome, CanHappen, PathMatches, NoProblems, Next, StatusOf, OrderKept;
    Ids();
    var cards, moves := Chain(path), ChainMoves(ok);
    ChainRun(path, ok);
    ChainOutcome(ok, 4);
    ChainOutcome(ok, 5);
    assert moves[..5] == moves;
    var lines := [Line(Id(1)), RETIRE, Line(Id(2)), Line(Id(4))];
    assert lines[..4] == lines;
    ChainRetires();
    ChainHasNoProblem(f, path);
    ChainNext(path, ok, 3, true, Id(4));
    ChainSettled(path, ok, 4, true, Id(2));
    ChainSettled(path, ok, 4, true, Id(4));
    assert MatchesAny(f, path, [path]) by { assert path in [path]; }
    ChainOrder(path, ok);
  }

  lemma ChainRetires()
    ensures SupersededIds([Line(Id(1)), RETIRE, Line(Id(2)), Line(Id(4))]) == {Id(3)}
  {
    hide Id;
    Ids();
    var lines := [Line(Id(1)), RETIRE, Line(Id(2)), Line(Id(4))];
    assert lines[1] in lines;
    assert forall l :: l in lines && l.kind == Supersede ==> l == RETIRE;
  }

  lemma ChainRun(path: string, ok: Receipt)
    requires ok.accepted
    ensures CanHappen(Chain(path), ChainMoves(ok))
  {
    hide Id, Outcome, CanHappen, Next, Dispatched;
    Ids();
    var cards, moves := Chain(path), ChainMoves(ok);
    NoMoves();
    assert moves[..0] == [];
    for n := 0 to 5
      invariant CanHappen(cards, moves[..n])
    {
      assert moves[..n + 1] == moves[..n] + [moves[n]];
      ChainOutcome(ok, n);
      if n == 0 { ChainNext(path, ok, 0, false, Id(1)); }
      if n == 1 { ChainLines(1, Id(1)); }
      if n == 3 { ChainNext(path, ok, 2, true, Id(2)); }
      if n == 4 { ChainNext(path, ok, 3, true, Id(4)); }
      CanHappenOne(cards, moves[..n], moves[n]);
    }
    assert moves[..5] == moves;
  }

  lemma ChainOrder(path: string, ok: Receipt)
    requires ok.accepted
    ensures OrderKept(Chain(path), Outcome(ChainMoves(ok)[..2]))
    ensures !OrderKept(Chain(path), Outcome(ChainMoves(ok)[..3]))
  {
    hide Id, Outcome, Settled, Dispatched;
    Ids();
    var cards := Chain(path);
    ChainOutcome(ok, 2);
    ChainOutcome(ok, 3);
    forall x ensures Dispatched([Line(Id(1)), RETIRE, Line(Id(2)), Line(Id(4))][..1], x) <==> x == Id(1) { ChainLines(1, x); }
    forall x | x in cards
      ensures var ev := Evidence([Line(Id(1)), RETIRE, Line(Id(2)), Line(Id(4))][..1], map[Id(1) := ok], map[]);
              Underway(cards, ev, x) ==> x == Id(1)
    {
      ChainSettled(path, ok, 1, true, x);
    }
    ChainSettled(path, ok, 2, true, Id(2));
    ChainSettled(path, ok, 2, true, Id(3));
    var third := Outcome(ChainMoves(ok)[..3]);
    assert Id(2) in cards[Id(3)].dependsOn && Underway(cards, third, Id(3)) && !IsDone(cards, third, Id(2));
  }

  // ----- a card retired too early -----

  function Pair(path: string): Cards { map[Id(1) := Card("G0", [], [path]), Id(2) := Card("G0", [], [path])] }

  const RETIRE_EARLY := Instruction(Id(1), Supersede, 0, Id(9))

  /** A supersede line takes a card out of the overlap check before its successor is accepted, and next_card
      still hands the card out: next to a card with the same paths, which was reported until then. */
  lemma EarlyRetirementRaces(f: Folding, path: string)
    requires PathMatches(f, path, path) && Tidy(f, path)
    ensures var cards := Pair(path);
            var moves := [Retire(RETIRE_EARLY), Act(DispatchNext(Line(Id(1)))), Act(DispatchNext(Line(Id(2))))];
            var after := Outcome(moves);
            && !NoProblems(f, cards, {}) && NoProblems(f, cards, SupersededIds(after.instructions))
            && CanHappen(cards, moves)
            && InFlight(cards, after, Id(1)) && InFlight(cards, after, Id(2)) && SharePath(f, cards, Id(1), Id(2))
  {
    hide Id, CanHappen, PathMatches, Tidy, NoProblems, Next, Attempts, Outcome;
    Ids();
    var cards := Pair(path);
    var moves := [Retire(RETIRE_EARLY), Act(DispatchNext(Line(Id(1)))), Act(DispatchNext(Line(Id(2))))];
    PairRun(path);
    PairProblem(f, path);
    PairSettled(path, 3, Id(1));
    PairSettled(path, 3, Id(2));
    var lines := [RETIRE_EARLY, Line(Id(1)), Line(Id(2))];
    assert lines[..3] == lines && lines[0] in lines;
    assert SupersededIds(lines) == {Id(1)};
    assert MatchesAny(f, path, [path]) by { assert path in [path]; }
  }

  lemma PairProblem(f: Folding, path: string)
    requires PathMatches(f, path, path) && Tidy(f, path)
    ensures !NoProblems(f, Pair(path), {}) && NoProblems(f, Pair(path), {Id(1)})
  {
    hide Id;
    Ids();
    var cards := Pair(path);
    hide Leq;
    IdsAscend(1, 2);
    assert Less(Id(1), Id(2));
    assert cards[Id(1)].writePaths[0] == path && cards[Id(2)].writePaths[0] == path;
    TidyOverlapIsReported(f, path, path, path);
    NothingReached(path, Id(1));
    NothingReached(path, Id(2));
    assert Races(f, cards, {}, Problem(Id(1), Id(2), path, path));
    hide Reaches, ClaimsOverlap;
    assert forall p: Problem :: p.a in cards && p.b in cards && {p.a, p.b} !! {Id(1)} ==> p.a == p.b;
  }

  lemma NothingReached(path: string, a: CardId)
    ensures forall b :: !Reaches(Pair(path), a, b)
  {
    forall b ensures !Reaches(Pair(path), a, b) {
      if Reaches(Pair(path), a, b) { ReachesStaysIn(Pair(path), a, b, {}); }
    }
  }

  lemma PairSettled(path: string, k: nat, x: CardId)
    requires k <= 3 && x in Pair(path)
    ensures var ev := Evidence([RETIRE_EARLY, Line(Id(1)), Line(Id(2))][..k], map[], map[]);
            var started := (k >= 2 && x == Id(1)) || (k >= 3 && x == Id(2));
            && Settled(Pair(path), ev, None, x) == (if started then IN_PROGRESS else PENDING)
            && StatusOf(Pair(path), ev, None, x) == (if started then IN_PROGRESS else READY)
  {
    hide Id;
    Ids();
    var lines := [RETIRE_EARLY, Line(Id(1)), Line(Id(2))];
    if k > 0 {
      PairSettled(path, k - 1, x);
      assert lines[..k] == lines[..k - 1] + [lines[k - 1]];
    }
    forall j | 0 <= j <= k ensures Dispatched(lines[..j], x) <==> (j >= 2 && x == Id(1)) || (j >= 3 && x == Id(2)) {
      PairDispatched(j, x);
    }
  }

  lemma PairDispatched(k: nat, x: CardId)
    requires k <= 3
    ensures Dispatched([RETIRE_EARLY, Line(Id(1)), Line(Id(2))][..k], x) <==> (k >= 2 && x == Id(1)) || (k >= 3 && x == Id(2))
  {
    hide Id, Dispatched;
    Ids();
    var lines := [RETIRE_EARLY, Line(Id(1)), Line(Id(2))];
    if k == 0 {
      assert lines[..0] == [];
      NothingDispatched(x);
    } else {
      PairDispatched(k - 1, x);
      assert lines[..k] == lines[..k - 1] + [lines[k - 1]];
      DispatchedAfterLine(lines[..k - 1], lines[k - 1], x);
    }
  }

  lemma PairNext(path: string, n: nat)
    requires 1 <= n <= 2
    ensures Next(Pair(path), Evidence([RETIRE_EARLY, Line(Id(1)), Line(Id(2))][..n], map[], map[]), None) == Some(Id(n))
  {
    hide Id, Next, StatusOf, Leq;
    Ids();
    PairSettled(path, n, Id(1));
    PairSettled(path, n, Id(2));
    IdsAscend(1, 2);
    IdsAscend(n, n);
    assert "G0" in GATES;
    FirstReadyIsNext(Pair(path), Evidence([RETIRE_EARLY, Line(Id(1)), Line(Id(2))][..n], map[], map[]), Id(n));
  }

  lemma PairRun(path: string)
    ensures var moves := [Retire(RETIRE_EARLY), Act(DispatchNext(Line(Id(1)))), Act(DispatchNext(Line(Id(2))))];
            CanHappen(Pair(path), moves) && Outcome(moves) == Evidence([RETIRE_EARLY, Line(Id(1)), Line(Id(2))], map[], map[])
  {
    hide Id, Outcome, CanHappen, Next, StatusOf;
    Ids();
    var cards := Pair(path);
    var moves := [Retire(RETIRE_EARLY), Act(DispatchNext(Line(Id(1)))), Act(DispatchNext(Line(Id(2))))];
    var lines := [RETIRE_EARLY, Line(Id(1)), Line(Id(2))];
    NoMoves();
    assert moves[..0] == [] && lines[..0] == [] && moves[..3] == moves && lines[..3] == lines;
    for n := 0 to 3
      invariant CanHappen(cards, moves[..n]) && Outcome(moves[..n]) == Evidence(lines[..n], map[], map[])
    {
      assert moves[..n + 1] == moves[..n] + [moves[n]] && lines[..n + 1] == lines[..n] + [lines[n]];
      if n > 0 { PairNext(path, n); }
      CanHappenOne(cards, moves[..n], moves[n]);
      OutcomeOne(moves[..n], moves[n]);
    }
  }
}
