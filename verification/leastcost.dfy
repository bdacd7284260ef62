/** The Least-Cost method: repeatedly scan the routes in row-major order for
    the cheapest one whose source and destination both still have a positive
    amount left, saturate it, and stop when no such route remains. */
module LeastCost {
  import opened Grid
  import opened Transport

  /** Route c can still carry goods: both its ends have a positive amount left. */
  predicate IsOpen(supplyLeft: seq<int>, demandLeft: seq<int>, c: Cell)
  {
    c.row < |supplyLeft| && c.col < |demandLeft|
    && supplyLeft[c.row] > 0 && demandLeft[c.col] > 0
  }

  /** c comes before d in row-major scan order. */
  predicate Precedes(c: Cell, d: Cell)
  {
    c.row < d.row || (c.row == d.row && c.col < d.col)
  }

  /** The selection rule: c is an open route of minimum cost, and every open
      route scanned before c costs strictly more (first minimum wins ties). */
  ghost predicate IsSelected(p: Problem, supplyLeft: seq<int>, demandLeft: seq<int>, c: Cell)
  {
    && p.InGrid(c) && IsOpen(supplyLeft, demandLeft, c)
    && (forall d :: p.InGrid(d) && IsOpen(supplyLeft, demandLeft, d) ==>
          p.UnitCost(c) <= p.UnitCost(d))
    && (forall d :: p.InGrid(d) && IsOpen(supplyLeft, demandLeft, d) && Precedes(d, c) ==>
          p.UnitCost(d) > p.UnitCost(c))
  }

  ghost predicate NoOpenCell(p: Problem, supplyLeft: seq<int>, demandLeft: seq<int>)
  {
    forall d :: p.InGrid(d) ==> !IsOpen(supplyLeft, demandLeft, d)
  }

  /** `best` is what the scan holds once every route before (a, b) has been
      examined: nothing if none of them is open, else the selection rule's
      choice among them. */
  ghost predicate BestSoFar(p: Problem, supplyLeft: seq<int>, demandLeft: seq<int>,
                            best: Option<Cell>, a: nat, b: nat)
  {
    match best
    case None =>
      forall d :: p.InGrid(d) && Precedes(d, Cell(a, b)) ==> !IsOpen(supplyLeft, demandLeft, d)
    case Some(c) =>
      && p.InGrid(c) && Precedes(c, Cell(a, b)) && IsOpen(supplyLeft, demandLeft, c)
      && (forall d :: p.InGrid(d) && Precedes(d, Cell(a, b)) && IsOpen(supplyLeft, demandLeft, d) ==>
            p.UnitCost(c) <= p.UnitCost(d))
      && (forall d ::
            (p.InGrid(d) && Precedes(d, Cell(a, b)) && IsOpen(supplyLeft, demandLeft, d) && Precedes(d, c)) ==>
            p.UnitCost(d) > p.UnitCost(c))
  }

  /** The scan's comparison: an open route replaces the current best only when
      it is strictly cheaper (the first route seen beats nothing). */
  function Consider(p: Problem, supplyLeft: seq<int>, demandLeft: seq<int>,
                    best: Option<Cell>, c: Cell): (r: Option<Cell>)
  {
    if IsOpen(supplyLeft, demandLeft, c) && (best.None? || p.UnitCost(c) < p.UnitCost(best.value))
    then Some(c)
    else best
  }

  /** The nested row-major scan, resumed at route (a, b) with `best` found so far. */
  function ScanFrom(p: Problem, supplyLeft: seq<int>, demandLeft: seq<int>,
                    a: nat, b: nat, best: Option<Cell>): (r: Option<Cell>)
    requires a <= p.sources && b <= p.destinations
    requires BestSoFar(p, supplyLeft, demandLeft, best, a, b)
    ensures BestSoFar(p, supplyLeft, demandLeft, r, p.sources, 0)
    decreases p.sources - a, p.destinations - b
  {
    if a == p.sources then best
    else if b == p.destinations then ScanFrom(p, supplyLeft, demandLeft, a + 1, 0, best)
    else ScanFrom(p, supplyLeft, demandLeft, a, b + 1,
                  Consider(p, supplyLeft, demandLeft, best, Cell(a, b)))
  }

  /** The route the next iteration saturates, or None when the loop stops. */
  function Cheapest(p: Problem, supplyLeft: seq<int>, demandLeft: seq<int>): (r: Option<Cell>)
    ensures r.None? <==> NoOpenCell(p, supplyLeft, demandLeft)
    ensures r.Some? ==> IsSelected(p, supplyLeft, demandLeft, r.value)
  {
    ScanFrom(p, supplyLeft, demandLeft, 0, 0, None)
  }

  /** At most one route meets the selection rule. */
  lemma SelectionUnique(p: Problem, supplyLeft: seq<int>, demandLeft: seq<int>, c: Cell, d: Cell)
    requires IsSelected(p, supplyLeft, demandLeft, c) && IsSelected(p, supplyLeft, demandLeft, d)
    ensures c == d
  {
  }

  /** The scan returns exactly the route the selection rule picks. */
  lemma CheapestIsSelected(p: Problem, supplyLeft: seq<int>, demandLeft: seq<int>, c: Cell)
    ensures Cheapest(p, supplyLeft, demandLeft) == Some(c) <==> IsSelected(p, supplyLeft, demandLeft, c)
  {
  }

  /** Saturating an open route turns at least one positive working value
      into zero and makes none positive, so the loop measure drops. */
  lemma SaturateShrinks(p: Problem, plan: Plan, c: Cell)
    requires Shaped(p, plan) && p.InGrid(c) && IsOpen(plan.supplyLeft, plan.demandLeft, c)
    ensures CountPositive(Saturate(p, plan, c).supplyLeft) + CountPositive(Saturate(p, plan, c).demandLeft)
          < CountPositive(plan.supplyLeft) + CountPositive(plan.demandLeft)
  {
    var q := Min(plan.supplyLeft[c.row], plan.demandLeft[c.col]);
    CountPositiveUpdate(plan.supplyLeft, c.row, plan.supplyLeft[c.row] - q);
    CountPositiveUpdate(plan.demandLeft, c.col, plan.demandLeft[c.col] - q);
  }

  /** The state the loop ends in when it starts from `plan`. */
  function RunFrom(p: Problem, plan: Plan): (r: Plan)
    requires Shaped(p, plan)
    decreases CountPositive(plan.supplyLeft) + CountPositive(plan.demandLeft)
  {
    match Cheapest(p, plan.supplyLeft, plan.demandLeft)
    case None => plan
    case Some(c) =>
      SaturateShrinks(p, plan, c);
      RunFrom(p, Saturate(p, plan, c))
  }

  /** Reference result of the Least-Cost method on p. */
  function Run(p: Problem): (r: Plan)
    requires p.Valid()
  {
    RunFrom(p, Start(p))
  }

  /** What holds at the top of every loop iteration: the books are straight,
      every quantity shipped is non-negative and sits on a route that is no longer
      open (so no route is written twice), and working values are non-negative
      when the inputs are. */
  ghost predicate Settled(p: Problem, plan: Plan)
  {
    && Accounted(p, plan)
    && (forall a, b :: 0 <= a < p.sources && 0 <= b < p.destinations ==> plan.alloc[a][b] >= 0)
    && (forall a, b :: 0 <= a < p.sources && 0 <= b < p.destinations && plan.alloc[a][b] != 0 ==>
          plan.supplyLeft[a] == 0 || plan.demandLeft[b] == 0)
    && (forall a :: 0 <= a < p.sources && p.supplies[a] >= 0 ==> plan.supplyLeft[a] >= 0)
    && (forall b :: 0 <= b < p.destinations && p.demands[b] >= 0 ==> plan.demandLeft[b] >= 0)
  }

  lemma StartSettled(p: Problem)
    requires p.Valid()
    ensures Settled(p, Start(p))
  {
    StartAccounted(p);
  }

  /** Saturating the selected route keeps Settled. */
  lemma SaturateSettled(p: Problem, plan: Plan, c: Cell)
    requires Settled(p, plan) && IsSelected(p, plan.supplyLeft, plan.demandLeft, c)
    ensures Settled(p, Saturate(p, plan, c))
  {
    var q := Min(plan.supplyLeft[c.row], plan.demandLeft[c.col]);
    var next := Saturate(p, plan, c);
    ShipAccounted(p, plan, c, q);
    PutSums(plan.alloc, p.sources, p.destinations, c.row, c.col, q);
    forall a, b | 0 <= a < p.sources && 0 <= b < p.destinations && next.alloc[a][b] != 0
      ensures next.supplyLeft[a] == 0 || next.demandLeft[b] == 0
    {
      if a != c.row || b != c.col {
        assert next.alloc[a][b] == plan.alloc[a][b];
      }
    }
    forall a, b | 0 <= a < p.sources && 0 <= b < p.destinations
      ensures next.alloc[a][b] >= 0
    {
      if a != c.row || b != c.col {
        assert next.alloc[a][b] == plan.alloc[a][b];
      }
    }
  }

  /** The Least-Cost allocator. Besides the allocation it returns the working
      copies as the loop leaves them. */
  method Allocate(p: Problem) returns (plan: Plan)
    requires p.Valid()
    ensures plan == Run(p)
    ensures Accounted(p, plan)
    ensures forall a, b :: 0 <= a < p.sources && 0 <= b < p.destinations ==> plan.alloc[a][b] >= 0
    // the loop stops exactly when no route is open
    ensures NoOpenCell(p, plan.supplyLeft, plan.demandLeft)
    ensures NonNegative(p.supplies) && NonNegative(p.demands) ==> Feasible(p, plan)
    ensures (NonNegative(p.supplies) && NonNegative(p.demands) && Sum(p.supplies) <= Sum(p.demands)) ==>
              AllZero(plan.supplyLeft)
    ensures (NonNegative(p.supplies) && NonNegative(p.demands) && Sum(p.supplies) >= Sum(p.demands)) ==>
              AllZero(plan.demandLeft)
  {
    plan := Start(p);
    StartSettled(p);
    while true
      invariant Settled(p, plan)
      invariant RunFrom(p, plan) == Run(p)
      decreases CountPositive(plan.supplyLeft) + CountPositive(plan.demandLeft)
    {
      var choice := Cheapest(p, plan.supplyLeft, plan.demandLeft);
      if choice.None? {
        break;
      }
      var c := choice.value;
      SaturateShrinks(p, plan, c);
      SaturateSettled(p, plan, c);
      plan := Saturate(p, plan, c);
    }
    if NonNegative(p.supplies) && NonNegative(p.demands) {
      assert NoOpenRoute(p, plan) by {
        forall i, j | 0 <= i < p.sources && 0 <= j < p.destinations
          ensures !(plan.supplyLeft[i] > 0 && plan.demandLeft[j] > 0)
        {
          assert p.InGrid(Cell(i, j));
        }
      }
      NoOpenRouteOneSide(p, plan);
      Exhaustion(p, plan);
    }
  }
}
