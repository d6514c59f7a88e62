/** The plan: cards, the dependency graph over the known cards, and reachability in it. */
module Plan {

  type CardId = string

  datatype Card = Card(gate: string, dependsOn: seq<CardId>, writePaths: seq<string>)

  type Cards = map<CardId, Card>

  /** a lists b in its depends_on, and both are cards of the plan. */
  predicate Edge(cards: Cards, a: CardId, b: CardId) {
    a in cards && b in cards && b in cards[a].dependsOn
  }

  ghost predicate IsPath(cards: Cards, p: seq<CardId>) {
    forall i :: 0 <= i < |p| - 1 ==> Edge(cards, p[i], p[i + 1])
  }

  ghost predicate Connects(cards: Cards, p: seq<CardId>, a: CardId, b: CardId) {
    |p| >= 2 && IsPath(cards, p) && p[0] == a && p[|p| - 1] == b
  }

  /** a depends on b, directly or through other cards. */
  ghost predicate Reaches(cards: Cards, a: CardId, b: CardId) {
    exists p :: Connects(cards, p, a, b)
  }

  ghost predicate Acyclic(cards: Cards) {
    forall c :: !Reaches(cards, c, c)
  }

  lemma ReachesDirect(cards: Cards, a: CardId, b: CardId)
    requires Edge(cards, a, b)
    ensures Reaches(cards, a, b)
  {
    assert Connects(cards, [a, b], a, b);
  }

  lemma ReachesTransitive(cards: Cards, a: CardId, b: CardId, c: CardId)
    requires Reaches(cards, a, b) && Reaches(cards, b, c)
    ensures Reaches(cards, a, c)
  {
    var p :| Connects(cards, p, a, b);
    var q :| Connects(cards, q, b, c);
    var r := p + q[1..];
    forall i | 0 <= i < |r| - 1 ensures Edge(cards, r[i], r[i + 1]) {
      if i < |p| - 1 {
        assert Edge(cards, p[i], p[i + 1]);
      } else {
        assert Edge(cards, q[i - |p| + 1], q[i - |p| + 2]);
      }
    }
    assert Connects(cards, r, a, c);
  }

  /** A set that holds the direct dependencies of `a` and is closed under Edge holds all it reaches. */
  lemma ReachesStaysIn(cards: Cards, a: CardId, b: CardId, closed: set<CardId>)
    requires Reaches(cards, a, b)
    requires forall d :: Edge(cards, a, d) ==> d in closed
    requires forall c, d :: c in closed && Edge(cards, c, d) ==> d in closed
    ensures b in closed
  {
    var p :| Connects(cards, p, a, b);
    for i := 1 to |p|
      invariant 1 <= i ==> Edge(cards, p[0], p[1])
      invariant 2 <= i ==> p[i - 1] in closed
    {
      assert Edge(cards, p[i - 1], p[i]);
    }
  }

  /** Every card the given one reaches. */
  ghost function ReachSet(cards: Cards, c: CardId): set<CardId> {
    set d | d in cards && Reaches(cards, c, d)
  }

  // ----- topological listings -----

  /** Every edge out of a listed card leads to a card listed earlier. */
  ghost predicate ListedAfterDependencies(cards: Cards, order: seq<CardId>) {
    forall i, d :: 0 <= i < |order| && Edge(cards, order[i], d) ==> d in order[..i]
  }

  ghost function FirstIndex(c: CardId, order: seq<CardId>): (i: nat)
    requires c in order
    ensures i < |order| && order[i] == c
    ensures forall k :: 0 <= k < i ==> order[k] != c
  {
    if order[0] == c then 0 else 1 + FirstIndex(c, order[1..])
  }

  lemma EdgeLowersIndex(cards: Cards, order: seq<CardId>, c: CardId, d: CardId)
    requires ListedAfterDependencies(cards, order) && c in order && Edge(cards, c, d)
    ensures d in order && FirstIndex(d, order) < FirstIndex(c, order)
  {
    var i := FirstIndex(c, order);
    assert d in order[..i];
    var j :| 0 <= j < i && order[..i][j] == d;
    assert order[j] == d;
  }

  /** A plan with a topological listing of all its cards has no cycle. */
  lemma ListingMeansAcyclic(cards: Cards, order: seq<CardId>)
    requires ListedAfterDependencies(cards, order)
    requires forall c :: c in cards ==> c in order
    ensures Acyclic(cards)
  {
    forall c ensures !Reaches(cards, c, c) {
      if Reaches(cards, c, c) {
        var p :| Connects(cards, p, c, c);
        assert Edge(cards, p[0], p[1]);
        for i := 1 to |p|
          invariant p[i - 1] in order
          invariant i > 1 ==> FirstIndex(p[i - 1], order) < FirstIndex(p[0], order)
        {
          assert Edge(cards, p[i - 1], p[i]);
          EdgeLowersIndex(cards, order, p[i - 1], p[i]);
        }
      }
    }
  }
}
