/** `_cycle_problems` (ops/gatecli.py): a three-colour depth-first search over the known cards. White
    cards have no colour yet; each report is the path from the root to the card that closed the cycle. */
module CycleCheck {
  import opened Plan
  import opened TextOrder

  datatype Colour = Grey | Black

  /** A real path whose last card already occurs in it. */
  ghost predicate ClosesCycle(cards: Cards, p: seq<CardId>) {
    |p| >= 2 && IsPath(cards, p) && p[|p| - 1] in p[..|p| - 1]
  }

  lemma ClosedPathIsCycle(cards: Cards, p: seq<CardId>)
    requires ClosesCycle(cards, p)
    ensures !Acyclic(cards)
  {
    var i :| 0 <= i < |p| - 1 && p[i] == p[|p| - 1];
    var q := p[i..];
    assert forall k :: 0 <= k < |q| ==> q[k] == p[i + k];
    assert Connects(cards, q, p[i], p[i]);
    assert Reaches(cards, p[i], p[i]);
  }

  class CycleSearch {
    const cards: Cards
    var colour: map<CardId, Colour>
    var out: seq<seq<CardId>>
    ghost var finished: seq<CardId>  // the black cards, in the order they turned black

    ghost predicate Valid(stack: seq<CardId>)
      reads this
    {
      && colour.Keys <= cards.Keys
      && (forall c :: c in stack <==> c in colour && colour[c] == Grey)
      && (forall c :: c in finished <==> c in colour && colour[c] == Black)
      && IsPath(cards, stack)
      && (forall p :: p in out ==> ClosesCycle(cards, p))
      && (out == [] ==> ListedAfterDependencies(cards, finished))
    }

    constructor (cards: Cards)
      ensures Valid([]) && this.cards == cards && out == [] && colour == map[]
    {
      this.cards := cards;
      colour, out, finished := map[], [], [];
    }

    method Visit(n: CardId, stack: seq<CardId>)
      requires Valid(stack) && n in cards
      requires stack != [] ==> Edge(cards, stack[|stack| - 1], n)
      modifies this
      ensures Valid(stack)
      ensures old(colour).Keys <= colour.Keys && old(out) <= out && old(finished) <= finished
      ensures out == [] ==> n in finished
      decreases cards.Keys - colour.Keys
    {
      if n in colour && colour[n] == Black { return; }
      if n in colour && colour[n] == Grey {
        GreyClosesCycle(stack, n);
        out := out + [stack + [n]];
        return;
      }
      Enter(n, stack);
      var deps := cards[n].dependsOn;
      for i := 0 to |deps|
        invariant Valid(stack + [n])
        invariant old(colour).Keys + {n} <= colour.Keys
        invariant old(out) <= out && old(finished) <= finished
        invariant out == [] ==> forall j :: 0 <= j < i && deps[j] in cards ==> deps[j] in finished
      {
        if deps[i] in cards { Visit(deps[i], stack + [n]); }
      }
      Leave(n, stack);
    }

    method Enter(n: CardId, stack: seq<CardId>)
      requires Valid(stack) && n in cards && n !in colour
      requires stack != [] ==> Edge(cards, stack[|stack| - 1], n)
      modifies this`colour
      ensures Valid(stack + [n]) && colour == old(colour)[n := Grey]
    {
      colour := colour[n := Grey];
      ExtendPath(stack, n);
    }

    method Leave(n: CardId, stack: seq<CardId>)
      requires Valid(stack + [n]) && n !in stack
      requires out == [] ==> forall d :: Edge(cards, n, d) ==> d in finished
      modifies this`colour, this`finished
      ensures Valid(stack) && colour == old(colour)[n := Black] && finished == old(finished) + [n]
    {
      assert n in stack + [n];
      assert (stack + [n])[..|stack|] == stack;
      if out == [] { ExtendListing(finished, n); }
      colour := colour[n := Black];
      finished := finished + [n];
    }

    lemma ExtendPath(stack: seq<CardId>, n: CardId)
      requires IsPath(cards, stack)
      requires stack != [] ==> Edge(cards, stack[|stack| - 1], n)
      ensures IsPath(cards, stack + [n])
    {
    }

    lemma GreyClosesCycle(stack: seq<CardId>, n: CardId)
      requires IsPath(cards, stack) && n in stack
      requires Edge(cards, stack[|stack| - 1], n)
      ensures ClosesCycle(cards, stack + [n])
    {
      ExtendPath(stack, n);
      assert (stack + [n])[..|stack|] == stack;
    }

    lemma ExtendListing(order: seq<CardId>, n: CardId)
      requires ListedAfterDependencies(cards, order)
      requires forall d :: Edge(cards, n, d) ==> d in order
      ensures ListedAfterDependencies(cards, order + [n])
    {
      var longer := order + [n];
      forall i, d | 0 <= i < |longer| && Edge(cards, longer[i], d) ensures d in longer[..i] {
        assert longer[..i] == order[..i];
        if i == |order| { assert order[..i] == order; }
      }
    }
  }

  /** Nothing is reported exactly when the graph over known cards is acyclic, and every report is a
      real path that closes a cycle. */
  method CycleProblems(cards: Cards) returns (out: seq<seq<CardId>>)
    ensures out == [] <==> Acyclic(cards)
    ensures forall p :: p in out ==> ClosesCycle(cards, p)
  {
    hide Sorted, Acyclic, ClosesCycle, ListedAfterDependencies, IsPath, Edge;
    var search := new CycleSearch(cards);
    var ids := Sorted(cards.Keys);
    for i := 0 to |ids|
      invariant search.cards == cards && search.Valid([])
      invariant search.out == [] ==> forall j :: 0 <= j < i ==> ids[j] in search.finished
    {
      search.Visit(ids[i], []);
    }
    out := search.out;
    if out == [] {
      ListingMeansAcyclic(cards, search.finished);
    } else {
      ClosedPathIsCycle(cards, out[0]);
    }
  }

  /** `_ancestors`: the shared `seen` set, grown in place by the recursion. */
  class AncestorWalk {
    var seen: set<CardId>

    constructor ()
      ensures seen == {}
    {
      seen := {};
    }

    method Collect(cards: Cards, cid: CardId)
      requires seen <= cards.Keys
      modifies this
      ensures old(seen) <= seen <= cards.Keys
      ensures forall d :: Edge(cards, cid, d) ==> d in seen
      ensures forall c, d :: c in seen - old(seen) && Edge(cards, c, d) ==> d in seen
      ensures forall c :: c in seen - old(seen) ==> Reaches(cards, cid, c)
      decreases cards.Keys - seen
    {
      var deps := if cid in cards then cards[cid].dependsOn else [];
      for i := 0 to |deps|
        invariant old(seen) <= seen <= cards.Keys
        invariant forall j :: 0 <= j < i && deps[j] in cards ==> deps[j] in seen
        invariant forall c, d :: c in seen - old(seen) && Edge(cards, c, d) ==> d in seen
        invariant forall c :: c in seen - old(seen) ==> Reaches(cards, cid, c)
      {
        var d := deps[i];
        if d in cards && d !in seen {
          ReachesDirect(cards, cid, d);
          ghost var before := seen;
          seen := seen + {d};
          Collect(cards, d);
          forall c | c in seen - old(seen) ensures Reaches(cards, cid, c) {
            if c !in before && c != d { ReachesTransitive(cards, cid, d, c); }
          }
        }
      }
    }
  }

  /** Every card `cid` transitively depends on: exact reachability, cycles or not. */
  method Ancestors(cards: Cards, cid: CardId) returns (seen: set<CardId>)
    ensures seen == ReachSet(cards, cid)
  {
    var walk := new AncestorWalk();
    walk.Collect(cards, cid);
    seen := walk.seen;
    forall d | d in ReachSet(cards, cid) ensures d in seen {
      ReachesStaysIn(cards, cid, d, seen);
    }
  }
}
