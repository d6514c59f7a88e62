/** The derived queue (ops/gateverify.py): every status is a function of the cards, the receipts, the
    environment records and the dispatch log; `next_card` picks one card from the derived rows. */
module Queue {
  import opened Options
  import opened Plan
  import opened TextOrder

  const GATES: seq<string> := ["G0", "G1", "G2", "G3", "G4", "G5"]

  datatype Kind = Dispatch | Rework | RootCause | Stop | ChannelInit | Supersede

  /** One line of the instruction channel. An absent target or successor is the empty string. */
  datatype Instruction = Instruction(target: string, kind: Kind, attempt: nat, successor: string)

  datatype Receipt = Receipt(accepted: bool, scopeOk: bool, controlFailed: bool, generatedAt: string)

  datatype EnvRecord = EnvRecord(generatedAt: string)

  /** Everything the statuses are derived from, besides the cards. */
  datatype Evidence = Evidence(
    instructions: seq<Instruction>,
    receipts: map<CardId, Receipt>,
    envBlocks: map<CardId, EnvRecord>)

  datatype Status = PENDING | READY | IN_PROGRESS | ACCEPTED | SUPERSEDED | BLOCKED_ENV | FAILED_INTERNAL

  datatype Row = Row(id: CardId, gate: string, status: Status, attempt: nat)

  // ----- what the channel says about one card -----

  predicate Addressed(line: Instruction) { line.target != "" && line.target != "ALL" }

  predicate Starts(line: Instruction) { line.kind == Dispatch || line.kind == Rework }

  predicate Dispatched(lines: seq<Instruction>, c: CardId) {
    exists line :: line in lines && Addressed(line) && line.target == c && Starts(line)
  }

  function Max(a: nat, b: nat): nat { if a < b then b else a }

  /** The highest attempt number any line gives the card. */
  function Attempts(lines: seq<Instruction>, c: CardId): nat {
    if lines == [] then 0
    else
      var last := lines[|lines| - 1];
      var before := Attempts(lines[..|lines| - 1], c);
      if Addressed(last) && last.target == c then Max(before, last.attempt) else before
  }

  /** The successor named by the card's last supersede line. */
  function SupersededBy(lines: seq<Instruction>, c: CardId): Option<CardId> {
    if lines == [] then None
    else
      var last := lines[|lines| - 1];
      if Addressed(last) && last.target == c && last.kind == Supersede && last.successor != "" then
        Some(last.successor)
      else
        SupersededBy(lines[..|lines| - 1], c)
  }

  // ----- the derived status -----

  /** A record governs only while it is newer than the card's receipt; ties go to the receipt. */
  predicate EnvBlockIsCurrent(ev: Evidence, c: CardId) {
    && c in ev.envBlocks
    && (c in ev.receipts ==> Less(ev.receipts[c].generatedAt, ev.envBlocks[c].generatedAt))
  }

  predicate HasAcceptedReceipt(ev: Evidence, c: CardId) {
    c in ev.receipts && ev.receipts[c].accepted
  }

  predicate SuccessorAccepted(cards: Cards, ev: Evidence, c: CardId) {
    match SupersededBy(ev.instructions, c)
    case None => false
    case Some(s) => s in cards && HasAcceptedReceipt(ev, s)
  }

  /** The status before READY is decided. `unstarted` hides one card's own receipt, environment record,
      dispatch marker and supersession. */
  function Settled(cards: Cards, ev: Evidence, unstarted: Option<CardId>, c: CardId): Status {
    if unstarted == Some(c) then PENDING
    else if SuccessorAccepted(cards, ev, c) then SUPERSEDED
    else if EnvBlockIsCurrent(ev, c) && Dispatched(ev.instructions, c) then BLOCKED_ENV
    else if HasAcceptedReceipt(ev, c) then ACCEPTED
    else if c in ev.receipts then
      if Attempts(ev.instructions, c) >= 3 then FAILED_INTERNAL else IN_PROGRESS
    else if Dispatched(ev.instructions, c) then IN_PROGRESS
    else PENDING
  }

  predicate Done(cards: Cards, ev: Evidence, unstarted: Option<CardId>, c: CardId) {
    c in cards && Settled(cards, ev, unstarted, c) in {ACCEPTED, SUPERSEDED}
  }

  predicate DependenciesDone(cards: Cards, ev: Evidence, unstarted: Option<CardId>, c: CardId)
    requires c in cards
  {
    forall d :: d in cards[c].dependsOn ==> Done(cards, ev, unstarted, d)
  }

  function StatusOf(cards: Cards, ev: Evidence, unstarted: Option<CardId>, c: CardId): Status
    requires c in cards
  {
    var settled := Settled(cards, ev, unstarted, c);
    if settled == PENDING && DependenciesDone(cards, ev, unstarted, c) then READY else settled
  }

  // ----- the statuses, from the lines, receipts and records alone -----

  predicate SupersedesAt(lines: seq<Instruction>, k: nat, c: CardId)
    requires k < |lines|
  {
    Addressed(lines[k]) && lines[k].target == c && lines[k].kind == Supersede && lines[k].successor != ""
  }

  /** s is the successor named by the last line that supersedes the card. */
  ghost predicate LastSuccessor(lines: seq<Instruction>, c: CardId, s: CardId) {
    exists k: nat ::
      k < |lines| && SupersedesAt(lines, k, c) && lines[k].successor == s
      && forall j :: k < j < |lines| ==> !SupersedesAt(lines, j, c)
  }

  lemma {:induction false} SupersededByIsLast(lines: seq<Instruction>, c: CardId, s: CardId)
    ensures SupersededBy(lines, c) == Some(s) <==> LastSuccessor(lines, c, s)
  {
    if lines != [] {
      var n := |lines| - 1;
      var before := lines[..n];
      SupersededByIsLast(before, c, s);
      assert forall k :: 0 <= k < n ==> (SupersedesAt(before, k, c) <==> SupersedesAt(lines, k, c));
      if SupersedesAt(lines, n, c) {
        if lines[n].successor == s { assert LastSuccessor(lines, c, s); }
      } else {
        if LastSuccessor(before, c, s) {
          var k: nat :| k < n && SupersedesAt(before, k, c) && before[k].successor == s
                        && forall j :: k < j < n ==> !SupersedesAt(before, j, c);
          assert SupersedesAt(lines, k, c) && lines[k].successor == s;
        }
        if LastSuccessor(lines, c, s) {
          var k: nat :| k <= n && SupersedesAt(lines, k, c) && lines[k].successor == s
                        && forall j :: k < j <= n ==> !SupersedesAt(lines, j, c);
          assert SupersedesAt(before, k, c) && before[k].successor == s;
        }
      }
    }
  }

  /** A line addressed to the card has this attempt number or a higher one. */
  ghost predicate ReachedAttempt(lines: seq<Instruction>, c: CardId, n: nat) {
    exists line :: line in lines && Addressed(line) && line.target == c && line.attempt >= n
  }

  lemma {:induction false} AttemptsIsGreatest(lines: seq<Instruction>, c: CardId, n: nat)
    requires n >= 1
    ensures Attempts(lines, c) >= n <==> ReachedAttempt(lines, c, n)
  {
    if lines != [] {
      var before, last := lines[..|lines| - 1], lines[|lines| - 1];
      AttemptsIsGreatest(before, c, n);
      assert lines == before + [last];
      assert forall line :: line in lines <==> line in before || line == last;
    }
  }

  /** An accepted card was named as its successor last. */
  ghost predicate Replaced(cards: Cards, ev: Evidence, c: CardId) {
    exists s :: LastSuccessor(ev.instructions, c, s) && s in cards && s in ev.receipts && ev.receipts[s].accepted
  }

  /** The environment blocked the card after it was dispatched, and no receipt is as new as that. */
  ghost predicate Blocked(ev: Evidence, c: CardId) {
    && c in ev.envBlocks && (c in ev.receipts ==> Less(ev.receipts[c].generatedAt, ev.envBlocks[c].generatedAt))
    && WasDispatched(ev, c)
  }

  ghost predicate WasDispatched(ev: Evidence, c: CardId) {
    exists line :: line in ev.instructions && line.target == c && line.kind in {Dispatch, Rework} && c !in {"", "ALL"}
  }

  ghost predicate Completed(cards: Cards, ev: Evidence, unstarted: Option<CardId>, c: CardId) {
    && c in cards && unstarted != Some(c)
    && (Replaced(cards, ev, c) || (!Blocked(ev, c) && c in ev.receipts && ev.receipts[c].accepted))
  }

  /** A card that is neither replaced nor hidden. */
  ghost predicate OnItsOwn(cards: Cards, ev: Evidence, unstarted: Option<CardId>, c: CardId) {
    unstarted != Some(c) && !Replaced(cards, ev, c)
  }

  /** Every status exactly, in terms of what was written down. */
  lemma StatusIsExact(cards: Cards, ev: Evidence, unstarted: Option<CardId>, c: CardId)
    requires c in cards
    ensures var s, own := StatusOf(cards, ev, unstarted, c), OnItsOwn(cards, ev, unstarted, c);
            var accepted, rejected := c in ev.receipts && ev.receipts[c].accepted, c in ev.receipts && !ev.receipts[c].accepted;
            var open := unstarted == Some(c) || (own && !Blocked(ev, c) && c !in ev.receipts && !WasDispatched(ev, c));
            var begun := if c in ev.receipts then rejected && !ReachedAttempt(ev.instructions, c, 3) else WasDispatched(ev, c);
            var free := forall d :: d in cards[c].dependsOn ==> Completed(cards, ev, unstarted, d);
            && (s == SUPERSEDED <==> unstarted != Some(c) && Replaced(cards, ev, c))
            && (s == BLOCKED_ENV <==> own && Blocked(ev, c))
            && (s == ACCEPTED <==> own && !Blocked(ev, c) && accepted)
            && (s == FAILED_INTERNAL <==> own && !Blocked(ev, c) && rejected && ReachedAttempt(ev.instructions, c, 3))
            && (s == IN_PROGRESS <==> own && !Blocked(ev, c) && begun)
            && (s == READY <==> open && free) && (s == PENDING <==> open && !free)
  {
    hide Settled, Less, Replaced, Blocked, WasDispatched, ReachedAttempt, Attempts;
    SettledIsExact(cards, ev, unstarted, c);
    forall d ensures Done(cards, ev, unstarted, d) <==> Completed(cards, ev, unstarted, d) {
      SettledIsExact(cards, ev, unstarted, d);
    }
  }

  lemma SettledIsExact(cards: Cards, ev: Evidence, unstarted: Option<CardId>, c: CardId)
    ensures Settled(cards, ev, unstarted, c) ==
              if unstarted == Some(c) then PENDING
              else if Replaced(cards, ev, c) then SUPERSEDED
              else if Blocked(ev, c) then BLOCKED_ENV
              else if c !in ev.receipts then (if WasDispatched(ev, c) then IN_PROGRESS else PENDING)
              else if ev.receipts[c].accepted then ACCEPTED
              else if ReachedAttempt(ev.instructions, c, 3) then FAILED_INTERNAL else IN_PROGRESS
  {
    hide Less, SupersededBy, LastSuccessor, Attempts, ReachedAttempt;
    AttemptsIsGreatest(ev.instructions, c, 3);
    forall s ensures SupersededBy(ev.instructions, c) == Some(s) <==> LastSuccessor(ev.instructions, c, s) {
      SupersededByIsLast(ev.instructions, c, s);
    }
    assert Dispatched(ev.instructions, c) <==> WasDispatched(ev, c);
  }

  // ----- the loops of rebuild_state -----

  /** The first loop of rebuild_state: one pass over the channel. */
  method ReadChannel(lines: seq<Instruction>)
    returns (attempts: map<CardId, nat>, dispatched: set<CardId>, supersededBy: map<CardId, CardId>)
    ensures forall c :: Attempts(lines, c) == if c in attempts then attempts[c] else 0
    ensures forall c :: c in dispatched <==> Dispatched(lines, c)
    ensures forall c :: SupersededBy(lines, c) == if c in supersededBy then Some(supersededBy[c]) else None
  {
    attempts, dispatched, supersededBy := map[], {}, map[];
    for k := 0 to |lines|
      invariant forall c :: Attempts(lines[..k], c) == if c in attempts then attempts[c] else 0
      invariant forall c :: c in dispatched <==> Dispatched(lines[..k], c)
      invariant forall c :: SupersededBy(lines[..k], c) ==
                              if c in supersededBy then Some(supersededBy[c]) else None
    {
      var line := lines[k];
      assert lines[..k + 1][..k] == lines[..k];
      assert lines[..k + 1] == lines[..k] + [line];
      if Addressed(line) {
        var t := line.target;
        attempts := attempts[t := Max(if t in attempts then attempts[t] else 0, line.attempt)];
        if Starts(line) { dispatched := dispatched + {t}; }
        if line.kind == Supersede && line.successor != "" { supersededBy := supersededBy[t := line.successor]; }
      }
    }
    assert lines[..|lines|] == lines;
  }

  function SettledRow(cards: Cards, ev: Evidence, unstarted: Option<CardId>, c: CardId): Row
    requires c in cards
  {
    Row(c, cards[c].gate, Settled(cards, ev, unstarted, c), Attempts(ev.instructions, c))
  }

  function FinalRow(cards: Cards, ev: Evidence, unstarted: Option<CardId>, c: CardId): Row
    requires c in cards
  {
    Row(c, cards[c].gate, StatusOf(cards, ev, unstarted, c), Attempts(ev.instructions, c))
  }

  /** The body of the second loop: the row of one card, from what the channel pass collected about it. */
  method SettleOne(cards: Cards, ev: Evidence, unstarted: Option<CardId>, cid: CardId,
                   attempt: nat, dispatched: bool, successor: Option<CardId>)
    returns (row: Row)
    requires cid in cards
    requires attempt == Attempts(ev.instructions, cid)
    requires dispatched == Dispatched(ev.instructions, cid)
    requires successor == SupersededBy(ev.instructions, cid)
    ensures row == SettledRow(cards, ev, unstarted, cid)
  {
    var hidden := unstarted == Some(cid);
    row := Row(cid, cards[cid].gate, PENDING, attempt);
    if successor.Some? && !hidden && successor.value in cards && HasAcceptedReceipt(ev, successor.value) {
      row := row.(status := SUPERSEDED);
    } else if !hidden && EnvBlockIsCurrent(ev, cid) && dispatched {
      row := row.(status := BLOCKED_ENV);
    } else if !hidden && HasAcceptedReceipt(ev, cid) {
      row := row.(status := ACCEPTED);
    } else if !hidden && cid in ev.receipts {
      row := row.(status := if row.attempt >= 3 then FAILED_INTERNAL else IN_PROGRESS);
    } else if dispatched && !hidden {
      row := row.(status := IN_PROGRESS);
    }
  }

  /** The second loop: one row per card, and the ids that satisfy dependencies. */
  method SettleRows(cards: Cards, ev: Evidence, unstarted: Option<CardId>, ids: seq<CardId>)
    returns (rows: seq<Row>, acceptedIds: set<CardId>)
    requires forall c :: c in ids <==> c in cards
    ensures |rows| == |ids|
    ensures forall j :: 0 <= j < |ids| ==> rows[j] == SettledRow(cards, ev, unstarted, ids[j])
    ensures forall c :: c in acceptedIds <==> Done(cards, ev, unstarted, c)
  {
    var attempts, dispatched, supersededBy := ReadChannel(ev.instructions);
    rows, acceptedIds := [], {};
    for i := 0 to |ids|
      invariant |rows| == i
      invariant forall j :: 0 <= j < i ==> rows[j] == SettledRow(cards, ev, unstarted, ids[j])
      invariant forall c :: c in acceptedIds <==> c in ids[..i] && Done(cards, ev, unstarted, c)
    {
      var cid := ids[i];
      assert cid in ids;
      var row := SettleOne(cards, ev, unstarted, cid, if cid in attempts then attempts[cid] else 0,
                           cid in dispatched, if cid in supersededBy then Some(supersededBy[cid]) else None);
      if row.status in {ACCEPTED, SUPERSEDED} { acceptedIds := acceptedIds + {cid}; }
      rows := rows + [row];
      assert ids[..i + 1] == ids[..i] + [cid];
    }
    assert ids[..|ids|] == ids;
  }

  /** rebuild_state: the rows in ascending id order, each with its derived status. */
  method RebuildState(cards: Cards, ev: Evidence, unstarted: Option<CardId>) returns (rows: seq<Row>)
    ensures |rows| == |Sorted(cards.Keys)|
    ensures forall i :: 0 <= i < |rows| ==> rows[i] == FinalRow(cards, ev, unstarted, Sorted(cards.Keys)[i])
  {
    hide Sorted, Settled, Attempts, Done;
    var ids := Sorted(cards.Keys);
    var acceptedIds;
    rows, acceptedIds := SettleRows(cards, ev, unstarted, ids);
    for i := 0 to |rows|
      invariant |rows| == |ids|
      invariant forall j :: 0 <= j < i ==> rows[j] == FinalRow(cards, ev, unstarted, ids[j])
      invariant forall j :: i <= j < |rows| ==> rows[j] == SettledRow(cards, ev, unstarted, ids[j])
    {
      if rows[i].status == PENDING && forall d :: d in cards[rows[i].id].dependsOn ==> d in acceptedIds {
        rows := rows[i := rows[i].(status := READY)];
      }
    }
  }

  // ----- the one next card -----

  function ReadyIn(cards: Cards, ev: Evidence, unstarted: Option<CardId>, gate: string): set<CardId> {
    set c | c in cards && cards[c].gate == gate && StatusOf(cards, ev, unstarted, c) == READY
  }

  /** The least READY card of the first gate, from the k-th on, that has one. */
  function NextFrom(cards: Cards, ev: Evidence, unstarted: Option<CardId>, k: nat): Option<CardId>
    requires k <= |GATES|
    decreases |GATES| - k
  {
    if k == |GATES| then None
    else
      var ready := ReadyIn(cards, ev, unstarted, GATES[k]);
      if ready != {} then Some(Least(ready)) else NextFrom(cards, ev, unstarted, k + 1)
  }

  function Next(cards: Cards, ev: Evidence, unstarted: Option<CardId>): Option<CardId> {
    NextFrom(cards, ev, unstarted, 0)
  }

  function GateRank(gate: string): (k: nat)
    ensures k <= |GATES| && (gate in GATES <==> k < |GATES|)
    ensures k < |GATES| ==> GATES[k] == gate
    ensures forall j :: 0 <= j < k ==> GATES[j] != gate
  {
    var r := RankFrom(gate, 0);
    r
  }

  function RankFrom(gate: string, k: nat): (r: nat)
    requires k <= |GATES|
    ensures k <= r <= |GATES|
    ensures r < |GATES| ==> GATES[r] == gate
    ensures forall j :: k <= j < r ==> GATES[j] != gate
    decreases |GATES| - k
  {
    if k == |GATES| || GATES[k] == gate then k else RankFrom(gate, k + 1)
  }

  /** The order in which next_card prefers cards: by gate, then by ascending id. */
  predicate Precedes(cards: Cards, a: CardId, b: CardId)
    requires a in cards && b in cards
  {
    var i, j := GateRank(cards[a].gate), GateRank(cards[b].gate);
    i < j || (i == j && Leq(a, b))
  }

  /** Next is nothing exactly when no card of a known gate is READY, and otherwise the first READY one. */
  lemma {:induction false} NextIsFirstReady(cards: Cards, ev: Evidence, unstarted: Option<CardId>, k: nat)
    requires k <= |GATES|
    ensures match NextFrom(cards, ev, unstarted, k)
            case None =>
              forall c :: c in cards && StatusOf(cards, ev, unstarted, c) == READY ==>
                !(k <= GateRank(cards[c].gate) < |GATES|)
            case Some(n) =>
              && n in cards && StatusOf(cards, ev, unstarted, n) == READY
              && k <= GateRank(cards[n].gate) < |GATES|
              && forall c :: c in cards && StatusOf(cards, ev, unstarted, c) == READY ==>
                   k <= GateRank(cards[c].gate) < |GATES| ==> Precedes(cards, n, c)
    decreases |GATES| - k
  {
    if k < |GATES| {
      var ready := ReadyIn(cards, ev, unstarted, GATES[k]);
      GateNamesDistinct(k);
      if ready == {} {
        NextIsFirstReady(cards, ev, unstarted, k + 1);
        forall c | c in cards && StatusOf(cards, ev, unstarted, c) == READY
          ensures GateRank(cards[c].gate) != k
        {
          assert c !in ready;
        }
      } else {
        forall c | c in cards && StatusOf(cards, ev, unstarted, c) == READY && GateRank(cards[c].gate) == k
          ensures c in ready {}
      }
    }
  }

  lemma GateNamesDistinct(k: nat)
    requires k < |GATES|
    ensures GateRank(GATES[k]) == k
  {
    var r := GateRank(GATES[k]);
    assert GATES[r] == GATES[k];
    assert forall i, j :: 0 <= i < |GATES| && 0 <= j < |GATES| && GATES[i][1] == GATES[j][1] ==> i == j;
    assert GATES[r][1] == GATES[k][1];
  }

  predicate IsReadyIn(r: Row, gate: string) { r.status == READY && r.gate == gate }

  /** The row is READY, of the k-th gate, no earlier gate has a READY row, and no READY row of its own
      gate has a smaller id. */
  ghost predicate IsPick(rows: seq<Row>, r: Row, k: nat) {
    && k < |GATES| && r in rows && IsReadyIn(r, GATES[k])
    && (forall q, j :: q in rows && 0 <= j < k ==> !IsReadyIn(q, GATES[j]))
    && (forall q :: q in rows && IsReadyIn(q, GATES[k]) ==> Leq(r.id, q.id))
  }

  /** next_card over the rebuilt rows. */
  method NextCard(rows: seq<Row>) returns (next: Option<CardId>)
    ensures next == None ==> forall q, j :: q in rows && 0 <= j < |GATES| ==> !IsReadyIn(q, GATES[j])
    ensures next.Some? ==> exists r, k :: IsPick(rows, r, k) && r.id == next.value
  {
    next := None;
    for k := 0 to |GATES|
      invariant next == None
      invariant forall q, j :: q in rows && 0 <= j < k ==> !IsReadyIn(q, GATES[j])
    {
      var ready := set r | r in rows && IsReadyIn(r, GATES[k]) :: r.id;
      if ready != {} {
        var ids := Sorted(ready);
        assert ids[0] in ready;
        SortedStartsLeast(ready);
        var r :| r in rows && IsReadyIn(r, GATES[k]) && r.id == ids[0];
        assert forall q :: q in rows && IsReadyIn(q, GATES[k]) ==> q.id in ready;
        assert IsPick(rows, r, k);
        return Some(ids[0]);
      }
      assert forall q :: q in rows && IsReadyIn(q, GATES[k]) ==> q.id in ready;
    }
  }

  lemma SortedStartsLeast(s: set<string>)
    requires s != {}
    ensures Sorted(s) != [] && IsLeast(Sorted(s)[0], s)
  {
    var ids := Sorted(s);
    forall x | x in s ensures Leq(ids[0], x) {
      var i :| 0 <= i < |ids| && ids[i] == x;
      if i == 0 { LeqReflexive(x); } else { assert Less(ids[0], ids[i]); }
    }
  }

  /** `gatectl next`: rebuild the rows, then pick. The two steps together compute Next. */
  method CmdNext(cards: Cards, ev: Evidence, unstarted: Option<CardId>) returns (next: Option<CardId>)
    ensures next == Next(cards, ev, unstarted)
  {
    var rows := RebuildState(cards, ev, unstarted);
    next := NextCard(rows);
    RowsAreFinal(cards, ev, unstarted, rows);
    NextHasReadyRow(cards, ev, unstarted, rows);
    if next.Some? {
      ghost var r, k :| IsPick(rows, r, k) && r.id == next.value;
      PickIsNext(cards, ev, unstarted, rows, r, k);
    }
  }

  ghost predicate AllFinal(cards: Cards, ev: Evidence, unstarted: Option<CardId>, rows: seq<Row>) {
    && (forall r :: r in rows ==> r.id in cards && r == FinalRow(cards, ev, unstarted, r.id))
    && (forall c :: c in cards ==> FinalRow(cards, ev, unstarted, c) in rows)
  }

  lemma RowsAreFinal(cards: Cards, ev: Evidence, unstarted: Option<CardId>, rows: seq<Row>)
    requires |rows| == |Sorted(cards.Keys)|
    requires forall i :: 0 <= i < |rows| ==> rows[i] == FinalRow(cards, ev, unstarted, Sorted(cards.Keys)[i])
    ensures AllFinal(cards, ev, unstarted, rows)
  {
    var ids := Sorted(cards.Keys);
    forall r | r in rows ensures r.id in cards && r == FinalRow(cards, ev, unstarted, r.id) {
      var i :| 0 <= i < |rows| && rows[i] == r;
      assert ids[i] in ids;
    }
    forall c | c in cards ensures FinalRow(cards, ev, unstarted, c) in rows {
      var i :| 0 <= i < |ids| && ids[i] == c;
      assert rows[i] == FinalRow(cards, ev, unstarted, c);
    }
  }

  lemma NextHasReadyRow(cards: Cards, ev: Evidence, unstarted: Option<CardId>, rows: seq<Row>)
    requires AllFinal(cards, ev, unstarted, rows)
    ensures Next(cards, ev, unstarted).Some? ==>
              exists r, k :: r in rows && 0 <= k < |GATES| && IsReadyIn(r, GATES[k])
  {
    NextIsFirstReady(cards, ev, unstarted, 0);
    var spec := Next(cards, ev, unstarted);
    if spec.Some? {
      var row := FinalRow(cards, ev, unstarted, spec.value);
      assert row in rows && IsReadyIn(row, GATES[GateRank(row.gate)]);
    }
  }

  lemma PickIsNext(cards: Cards, ev: Evidence, unstarted: Option<CardId>, rows: seq<Row>, r: Row, k: nat)
    requires AllFinal(cards, ev, unstarted, rows) && IsPick(rows, r, k)
    ensures Next(cards, ev, unstarted) == Some(r.id)
  {
    NextIsFirstReady(cards, ev, unstarted, 0);
    GateNamesDistinct(k);
    var spec := Next(cards, ev, unstarted);
    assert r == FinalRow(cards, ev, unstarted, r.id);
    assert spec.Some? && Precedes(cards, spec.value, r.id);
    var row := FinalRow(cards, ev, unstarted, spec.value);
    assert row in rows && IsReadyIn(row, GATES[GateRank(row.gate)]);
    LeqAntisymmetric(spec.value, r.id);
  }
}
