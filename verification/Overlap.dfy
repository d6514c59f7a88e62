/** `_overlap_problems` (ops/gatecli.py): overlapping write paths of two cards that no dependency orders. */
module Overlap {
  import opened Plan
  import opened PathRules
  import opened Queue
  import opened TextOrder
  import CycleCheck

  /** `_superseded_card_ids`: every target of a supersede line, accepted successor or not. */
  function SupersededIds(lines: seq<Instruction>): set<CardId> {
    set line | line in lines && line.kind == Supersede && line.target != "" :: line.target
  }

  datatype Problem = Problem(a: CardId, b: CardId, x: string, y: string)

  /** Two live cards that no chain of dependencies orders, with a pair of write patterns the claim test
      calls overlapping. Retired cards still carry ordering chains. */
  ghost predicate Races(f: Folding, cards: Cards, retired: set<CardId>, p: Problem) {
    && p.a in cards && p.b in cards && p.a !in retired && p.b !in retired && Less(p.a, p.b)
    && !Reaches(cards, p.a, p.b) && !Reaches(cards, p.b, p.a)
    && p.x in cards[p.a].writePaths && p.y in cards[p.b].writePaths
    && ClaimsOverlap(f, p.x, p.y)
  }

  /** The two innermost loops: every overlapping pair of patterns of a and b. */
  method ClaimPairs(f: Folding, cards: Cards, a: CardId, b: CardId) returns (out: seq<Problem>)
    requires a in cards && b in cards
    ensures forall p :: p in out <==>
              && p.a == a && p.b == b && p.x in cards[a].writePaths && p.y in cards[b].writePaths
              && ClaimsOverlap(f, p.x, p.y)
  {
    out := [];
    var xs, ys := cards[a].writePaths, cards[b].writePaths;
    for i := 0 to |xs|
      invariant forall p :: p in out <==>
                  && p.a == a && p.b == b && p.x in xs[..i] && p.y in ys && ClaimsOverlap(f, p.x, p.y)
    {
      assert xs[..i + 1] == xs[..i] + [xs[i]];
      for j := 0 to |ys|
        invariant forall p :: p in out <==>
                    && p.a == a && p.b == b && ClaimsOverlap(f, p.x, p.y)
                    && ((p.x in xs[..i] && p.y in ys) || (p.x == xs[i] && p.y in ys[..j]))
      {
        assert ys[..j + 1] == ys[..j] + [ys[j]];
        if ClaimsOverlap(f, xs[i], ys[j]) { out := out + [Problem(a, b, xs[i], ys[j])]; }
      }
      assert ys[..|ys|] == ys;
    }
    assert xs[..|xs|] == xs;
  }

  /** One unordered pair of cards; a dependency-ordered pair is skipped. */
  method PairProblems(f: Folding, cards: Cards, retired: set<CardId>, a: CardId, b: CardId) returns (out: seq<Problem>)
    requires {a, b} <= cards.Keys - retired && Less(a, b)
    ensures forall p :: p in out <==> p.a == a && p.b == b && Races(f, cards, retired, p)
  {
    var ofA := CycleCheck.Ancestors(cards, a);
    var ofB := CycleCheck.Ancestors(cards, b);
    assert b in ofA <==> Reaches(cards, a, b);
    assert a in ofB <==> Reaches(cards, b, a);
    out := [];
    if b !in ofA && a !in ofB {
      out := ClaimPairs(f, cards, a, b);
    }
  }

  /** The pairs of ids[i] with every later id. */
  method ProblemsOf(f: Folding, cards: Cards, retired: set<CardId>, ids: seq<CardId>, i: nat) returns (out: seq<Problem>)
    requires i < |ids| && forall j, k :: 0 <= j < k < |ids| ==> Less(ids[j], ids[k])
    requires forall c :: c in ids ==> c in cards && c !in retired
    ensures forall p :: p in out <==> p.a == ids[i] && p.b in ids[i + 1..] && Races(f, cards, retired, p)
  {
    hide Races;
    out := [];
    var a := ids[i];
    for j := i + 1 to |ids|
      invariant forall p :: p in out <==> p.a == a && p.b in ids[i + 1..j] && Races(f, cards, retired, p)
    {
      assert ids[i + 1..j + 1] == ids[i + 1..j] + [ids[j]];
      var pairs := PairProblems(f, cards, retired, a, ids[j]);
      out := out + pairs;
    }
  }

  /** Exactly the racing claims are reported. */
  method OverlapProblems(f: Folding, cards: Cards, retired: set<CardId>) returns (out: seq<Problem>)
    ensures forall p :: p in out <==> Races(f, cards, retired, p)
  {
    hide Races, Sorted, Leq, Less;
    RacesAreLive(f, cards, retired);
    out := [];
    var ids := Sorted(cards.Keys - retired);
    for i := 0 to |ids|
      invariant forall p :: p in out <==> p.a in ids[..i] && Races(f, cards, retired, p)
    {
      var problems := ProblemsOf(f, cards, retired, ids, i);
      LaterInOrder(ids, i);
      assert ids[..i + 1] == ids[..i] + [ids[i]];
      out := out + problems;
    }
    assert ids[..|ids|] == ids;
  }

  lemma RacesAreLive(f: Folding, cards: Cards, retired: set<CardId>)
    ensures forall p :: Races(f, cards, retired, p) ==> {p.a, p.b} <= cards.Keys - retired && Less(p.a, p.b)
  {
  }

  lemma LaterInOrder(ids: seq<CardId>, i: nat)
    requires i < |ids| && forall j, k :: 0 <= j < k < |ids| ==> Less(ids[j], ids[k])
    ensures forall b :: b in ids && Less(ids[i], b) ==> b in ids[i + 1..]
  {
    forall b | b in ids && Less(ids[i], b) ensures b in ids[i + 1..] {
      var j :| 0 <= j < |ids| && ids[j] == b;
      if j < i {
        LeqAntisymmetric(ids[i], ids[j]);
      }
      assert ids[i + 1..][j - i - 1] == b;
    }
  }
}
