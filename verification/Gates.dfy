/** The gates of the plan (ops/gateverify.py): which are accepted, which one is current, and its status. */
module Gates {
  import opened Options
  import opened Plan
  import opened Queue
  import opened DispatchLoop

  datatype GateStatus =
    | GateAccepted | ExitFailed | ExitPending | GateInProgress | GateBlocked | GateFailed | GateReady

  predicate IsDone(s: Status) { s == ACCEPTED || s == SUPERSEDED }

  /** gate_status: the status of a gate from its cards and its exit evidence. */
  function StatusOfGate(statuses: seq<Status>, exitAccepted: bool, verdict: string): GateStatus {
    if statuses != [] && forall s :: s in statuses ==> IsDone(s) then
      if exitAccepted then GateAccepted
      else if verdict == "NOT_MET" || verdict == "BLOCKED_ENV" then ExitFailed else ExitPending
    else if IN_PROGRESS in statuses then GateInProgress
    else if BLOCKED_ENV in statuses then GateBlocked
    else if FAILED_INTERNAL in statuses then GateFailed
    else GateReady
  }

  /** Some card of the gate has this status. */
  ghost predicate SomeCard(rows: seq<Row>, gate: string, s: Status) { exists r :: r in rows && r.gate == gate && r.status == s }

  /** Every status of a gate, from the statuses of its cards and its exit evidence. */
  lemma GateStatusIsExact(rows: seq<Row>, gate: string, exitAccepted: bool, verdict: string)
    ensures var status := StatusOfGate(StatusesOf(rows, gate), exitAccepted, verdict);
            var allDone := Present(rows, gate) && forall r :: r in rows && r.gate == gate ==> r.status in {ACCEPTED, SUPERSEDED};
            var running, blocked, failed :=
              SomeCard(rows, gate, IN_PROGRESS), SomeCard(rows, gate, BLOCKED_ENV), SomeCard(rows, gate, FAILED_INTERNAL);
            && (status == GateAccepted <==> allDone && exitAccepted)
            && (status == ExitFailed <==> allDone && !exitAccepted && verdict in {"NOT_MET", "BLOCKED_ENV"})
            && (status == ExitPending <==> allDone && !exitAccepted && verdict !in {"NOT_MET", "BLOCKED_ENV"})
            && (status == GateInProgress <==> running)
            && (status == GateBlocked <==> !running && blocked)
            && (status == GateFailed <==> !running && !blocked && failed)
            && (status == GateReady <==> !allDone && !running && !blocked && !failed)
  {
    hide StatusesOf, Present, SomeCard;
    var statuses := StatusesOf(rows, gate);
    NonEmptyStatuses(rows, gate);
    forall s ensures s in statuses <==> SomeCard(rows, gate, s) { StatusIsSomeCards(rows, gate, s); }
    AllDoneIs(rows, gate);
  }

  lemma StatusIsSomeCards(rows: seq<Row>, gate: string, s: Status)
    ensures s in StatusesOf(rows, gate) <==> SomeCard(rows, gate, s)
  {
  }

  lemma AllDoneIs(rows: seq<Row>, gate: string)
    ensures (forall s :: s in StatusesOf(rows, gate) ==> IsDone(s)) <==>
            forall r :: r in rows && r.gate == gate ==> r.status in {ACCEPTED, SUPERSEDED}
  {
    var statuses := StatusesOf(rows, gate);
    forall r | r in rows && r.gate == gate ensures r.status in statuses {}
    if forall s :: s in statuses ==> IsDone(s) {
      forall r | r in rows && r.gate == gate ensures r.status in {ACCEPTED, SUPERSEDED} { assert IsDone(r.status); }
    }
    if forall r :: r in rows && r.gate == gate ==> r.status in {ACCEPTED, SUPERSEDED} {
      forall s | s in statuses ensures IsDone(s) { var r :| r in rows && r.gate == gate && r.status == s; }
    }
  }

  function StatusesOf(rows: seq<Row>, gate: string): (statuses: seq<Status>)
    ensures forall s :: s in statuses <==> exists r :: r in rows && r.gate == gate && r.status == s
  {
    if rows == [] then []
    else
      assert rows == [rows[0]] + rows[1..];
      (if rows[0].gate == gate then [rows[0].status] else []) + StatusesOf(rows[1..], gate)
  }

  /** Some card has this gate. */
  predicate Present(rows: seq<Row>, gate: string) { exists r :: r in rows && r.gate == gate }

  /** Every card is done and the exit was met: the gate's manifest says so. */
  predicate AcceptedGate(rows: seq<Row>, manifests: set<string>, gate: string) {
    Present(rows, gate) && gate in manifests && forall r :: r in rows && r.gate == gate ==> IsDone(r.status)
  }

  predicate Open(rows: seq<Row>, manifests: set<string>, gate: string) {
    Present(rows, gate) && !AcceptedGate(rows, manifests, gate)
  }

  /** The gate part of rebuild_state. */
  method CurrentGate(rows: seq<Row>, manifests: set<string>, verdicts: map<string, string>)
    returns (accepted: seq<string>, current: string, status: GateStatus)
    ensures forall g :: g in accepted <==> g in GATES && AcceptedGate(rows, manifests, g)
    ensures forall i, j :: 0 <= i < j < |accepted| ==> GateRank(accepted[i]) < GateRank(accepted[j])
    ensures IsCurrent(rows, manifests, current)
    ensures status == StatusOfGate(StatusesOf(rows, current), AcceptedGate(rows, manifests, current),
                                   if current in verdicts then verdicts[current] else "")
  {
    hide StatusOfGate, GateRank;
    accepted := [];
    for i := 0 to |GATES|
      invariant forall g :: g in accepted <==> g in GATES[..i] && AcceptedGate(rows, manifests, g)
      invariant forall g :: g in accepted ==> GateRank(g) < i
      invariant forall k, m :: 0 <= k < m < |accepted| ==> GateRank(accepted[k]) < GateRank(accepted[m])
    {
      GateNamesDistinct(i);
      var g := GATES[i];
      if Present(rows, g) {
        var statuses := StatusesOf(rows, g);
        if (forall s :: s in statuses ==> IsDone(s)) && g in manifests { accepted := accepted + [g]; }
      }
      assert GATES[..i + 1] == GATES[..i] + [g];
    }
    assert GATES[..|GATES|] == GATES;
    current := GATES[0];
    for i := 0 to |GATES|
      invariant current == GATES[0]
      invariant forall j :: 0 <= j < i ==> !Open(rows, manifests, GATES[j])
    {
      if Present(rows, GATES[i]) && GATES[i] !in accepted {
        current := GATES[i];
        break;
      }
    }
    status := StatusOfGate(StatusesOf(rows, current), current in accepted,
                           if current in verdicts then verdicts[current] else "");
  }

  /** The first open gate, or the first gate of all when none is open. */
  predicate IsCurrent(rows: seq<Row>, manifests: set<string>, current: string) {
    exists i :: 0 <= i < |GATES| && GATES[i] == current
      && (forall j :: 0 <= j < i ==> !Open(rows, manifests, GATES[j]))
      && (Open(rows, manifests, current) || (i == 0 && forall j :: 0 <= j < |GATES| ==> !Open(rows, manifests, GATES[j])))
  }

  /** The current gate reads ACCEPTED exactly when no gate is open and the first gate has a card. With
      nothing open and no card of the first gate it reads READY, however much is accepted. */
  lemma AcceptedMeansNothingOpen(rows: seq<Row>, manifests: set<string>, current: string, verdict: string)
    requires IsCurrent(rows, manifests, current)
    ensures var status := StatusOfGate(StatusesOf(rows, current), AcceptedGate(rows, manifests, current), verdict);
            var noneOpen := forall g :: g in GATES ==> !Open(rows, manifests, g);
            && (status == GateAccepted <==> noneOpen && Present(rows, GATES[0]))
            && (noneOpen && !Present(rows, GATES[0]) ==> status == GateReady)
  {
    hide IsCurrent, GATES;
    CurrentIsOpenOrFirst(rows, manifests, current);
    NonEmptyStatuses(rows, current);
  }

  lemma CurrentIsOpenOrFirst(rows: seq<Row>, manifests: set<string>, current: string)
    requires IsCurrent(rows, manifests, current)
    ensures current in GATES && GATES[0] in GATES
    ensures Open(rows, manifests, current) || (current == GATES[0] && forall g :: g in GATES ==> !Open(rows, manifests, g))
  {
    hide Open;
  }

  lemma NonEmptyStatuses(rows: seq<Row>, gate: string)
    ensures StatusesOf(rows, gate) != [] <==> Present(rows, gate)
  {
    var statuses := StatusesOf(rows, gate);
    if statuses != [] { assert statuses[0] in statuses; }
    if Present(rows, gate) {
      var r :| r in rows && r.gate == gate;
      assert r.status in statuses;
    }
  }

  // ----- a READY gate has a next card -----

  /** No card depends on a card of a later gate. */
  ghost predicate GatesFollowDependencies(cards: Cards) {
    forall c, d :: Edge(cards, c, d) ==> GateRank(cards[d].gate) <= GateRank(cards[c].gate)
  }

  lemma OpenCardIsNotInEarlierGate(
      cards: Cards, ev: Evidence, rows: seq<Row>, manifests: set<string>, k: nat, c: CardId)
    requires AllFinal(cards, ev, None, rows) && k < |GATES|
    requires forall j :: 0 <= j < k ==> !Open(rows, manifests, GATES[j])
    requires c in cards && !Done(cards, ev, None, c)
    ensures GateRank(cards[c].gate) >= k
  {
    hide Settled;
    var j, row := GateRank(cards[c].gate), FinalRow(cards, ev, None, c);
    assert row in rows && !IsDone(row.status);
    assert Present(rows, row.gate) && !AcceptedGate(rows, manifests, row.gate);
    assert Open(rows, manifests, cards[c].gate);
  }

  /** Below an open card of the current gate lies one whose dependencies are done, in the same gate. */
  lemma LowestInGate(
      cards: Cards, ev: Evidence, rows: seq<Row>, manifests: set<string>, k: nat, c: CardId) returns (low: CardId)
    requires Acyclic(cards) && KnownPlan(cards) && GatesFollowDependencies(cards) && AllFinal(cards, ev, None, rows)
    requires k < |GATES| && forall j :: 0 <= j < k ==> !Open(rows, manifests, GATES[j])
    requires c in cards && !Done(cards, ev, None, c) && GateRank(cards[c].gate) == k
    ensures low in cards && !Done(cards, ev, None, low) && DependenciesDone(cards, ev, None, low)
    ensures GateRank(cards[low].gate) == k
    decreases |ReachSet(cards, c)|
  {
    hide Settled, Open, AllFinal, ReachSet;
    if DependenciesDone(cards, ev, None, c) {
      low := c;
    } else {
      var d :| d in cards[c].dependsOn && !Done(cards, ev, None, d);
      assert Edge(cards, c, d);
      OpenCardIsNotInEarlierGate(cards, ev, rows, manifests, k, d);
      ReachSetShrinks(cards, c, d);
      low := LowestInGate(cards, ev, rows, manifests, k, d);
    }
  }

  /** When the current gate reads READY and no card depends on a later gate, next_card returns a card of that
      very gate: the gate line and the queue never disagree. */
  lemma ReadyGateHasNext(
      cards: Cards, ev: Evidence, rows: seq<Row>, manifests: set<string>, k: nat, verdict: string)
    requires Acyclic(cards) && KnownPlan(cards) && GatesFollowDependencies(cards) && AllFinal(cards, ev, None, rows)
    requires k < |GATES| && Open(rows, manifests, GATES[k])
    requires forall j :: 0 <= j < k ==> !Open(rows, manifests, GATES[j])
    requires StatusOfGate(StatusesOf(rows, GATES[k]), false, verdict) == GateReady
    ensures var next := Next(cards, ev, None); next.Some? && next.value in cards && cards[next.value].gate == GATES[k]
  {
    hide Settled, Open, ReachSet, NextFrom;
    GateNamesDistinct(k);
    var c := OpenCardOfReadyGate(cards, ev, rows, manifests, k, verdict);
    var low := LowestInGate(cards, ev, rows, manifests, k, c);
    NotHeldUp(cards, ev, rows, GATES[k], verdict, low);
    NextIsFirstReady(cards, ev, None, 0);
    var n := Next(cards, ev, None).value;
    OpenCardIsNotInEarlierGate(cards, ev, rows, manifests, k, n);
  }

  /** A card of a READY gate that is not done and has its dependencies done is READY itself. */
  lemma NotHeldUp(cards: Cards, ev: Evidence, rows: seq<Row>, gate: string, verdict: string, low: CardId)
    requires AllFinal(cards, ev, None, rows) && StatusOfGate(StatusesOf(rows, gate), false, verdict) == GateReady
    requires low in cards && cards[low].gate == gate
    requires !Done(cards, ev, None, low) && DependenciesDone(cards, ev, None, low)
    ensures StatusOf(cards, ev, None, low) == READY
  {
    hide Settled, DependenciesDone;
    var row := FinalRow(cards, ev, None, low);
    assert row in rows && row.status in StatusesOf(rows, gate);
    SettledIsNotReady(cards, ev, low);
  }

  lemma OpenCardOfReadyGate(cards: Cards, ev: Evidence, rows: seq<Row>, manifests: set<string>, k: nat, verdict: string)
    returns (c: CardId)
    requires AllFinal(cards, ev, None, rows) && k < |GATES| && Open(rows, manifests, GATES[k])
    requires StatusOfGate(StatusesOf(rows, GATES[k]), false, verdict) == GateReady
    ensures c in cards && !Done(cards, ev, None, c) && cards[c].gate == GATES[k]
  {
    hide Settled, GATES, StatusesOf;
    NonEmptyStatuses(rows, GATES[k]);
    var s :| s in StatusesOf(rows, GATES[k]) && !IsDone(s);
    var r :| r in rows && r.gate == GATES[k] && r.status == s;
    c := r.id;
  }
}
