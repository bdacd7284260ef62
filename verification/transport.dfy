/** The transportation problem: a problem instance, its dimension check, the
    working plan both greedy allocators build, and the single shipping step
    they share, with the bookkeeping facts that step preserves. */
module Transport {
  import opened Grid

  datatype Option<T> = None | Some(value: T)

  datatype Result<T, E> = Success(value: T) | Failure(error: E)

  /** Route from source `row` to destination `col`. */
  datatype Cell = Cell(row: nat, col: nat)

  /** A problem instance; route (i, j) costs costs[i * destinations + j]. */
  datatype Problem = Problem(sources: nat, destinations: nat,
                             supplies: seq<int>, demands: seq<int>, costs: seq<int>)
  {
    /** The dimension check that guards both allocators. */
    predicate Valid()
    {
      |supplies| == sources && |demands| == destinations && |costs| == sources * destinations
    }

    predicate InGrid(c: Cell)
    {
      c.row < sources && c.col < destinations
    }

    function UnitCost(c: Cell): int
    {
      CostAt(costs, destinations, c.row, c.col)
    }
  }

  /** Row-major position of an in-grid route lies inside the cost list. */
  lemma CellIndexInRange(m: nat, n: nat, i: nat, j: nat)
    requires i < m && j < n
    ensures i * n + j < m * n
  {
    assert i * n + n == (i + 1) * n;
    assert (i + 1) * n <= m * n;
  }

  function Min(x: int, y: int): (r: int)
  {
    if x <= y then x else y
  }

  const DimensionError: string := "Invalid input dimensions."

  /** Builds the instance once the lengths agree with the declared counts;
      reports the dimension error otherwise. */
  function CheckDimensions(numSources: int, numDestinations: int,
                           supplies: seq<int>, demands: seq<int>, costs: seq<int>): (r: Result<Problem, string>)
    ensures r.Success? <==> |supplies| == numSources && |demands| == numDestinations
                            && |costs| == numSources * numDestinations
    ensures r.Failure? ==> r.error == DimensionError
    ensures r.Success? ==> r.value.Valid() && r.value.sources == numSources
                           && r.value.destinations == numDestinations
                           && r.value.supplies == supplies && r.value.demands == demands
                           && r.value.costs == costs
  {
    if |supplies| != numSources || |demands| != numDestinations
       || |costs| != numSources * numDestinations
    then Failure(DimensionError)
    else Success(Problem(numSources, numDestinations, supplies, demands, costs))
  }

  /** In a valid instance every route's unit cost is read from inside the
      cost list, at its row-major position. */
  lemma UnitCostInRange(p: Problem, c: Cell)
    requires p.Valid() && p.InGrid(c)
    ensures c.row * p.destinations + c.col < |p.costs|
    ensures p.UnitCost(c) == p.costs[c.row * p.destinations + c.col]
  {
    CellIndexInRange(p.sources, p.destinations, c.row, c.col);
  }

  /** What an allocator returns: the allocation matrix and its total cost. */
  datatype Solution = Solution(alloc: seq<seq<int>>, totalCost: int)

  /** An allocator's state: the allocation so far, the cost accumulated so
      far, and its private working copies of the supplies and demands. */
  datatype Plan = Plan(alloc: seq<seq<int>>, totalCost: int,
                       supplyLeft: seq<int>, demandLeft: seq<int>)
  {
    function Result(): Solution
    {
      Solution(alloc, totalCost)
    }
  }

  ghost predicate Shaped(p: Problem, plan: Plan)
  {
    IsMatrix(plan.alloc, p.sources, p.destinations)
    && |plan.supplyLeft| == p.sources && |plan.demandLeft| == p.destinations
  }

  /** Fresh state: all-zero matrix, zero cost, copies of the inputs. */
  function Start(p: Problem): (plan: Plan)
    requires p.Valid()
    ensures Shaped(p, plan)
  {
    Plan(Zeros(p.sources, p.destinations), 0, p.supplies, p.demands)
  }

  /** Records quantity q on route c (an assignment, not an increment), adds
      q times the route's unit cost, and takes q off both working values. */
  function Ship(p: Problem, plan: Plan, c: Cell, q: int): (next: Plan)
    requires Shaped(p, plan) && p.InGrid(c)
    ensures Shaped(p, next)
  {
    PutSums(plan.alloc, p.sources, p.destinations, c.row, c.col, q);
    Plan(Put(plan.alloc, c.row, c.col, q),
         plan.totalCost + q * p.UnitCost(c),
         plan.supplyLeft[c.row := plan.supplyLeft[c.row] - q],
         plan.demandLeft[c.col := plan.demandLeft[c.col] - q])
  }

  /** Ships as much as route c can take: the smaller of its source's and its
      destination's remaining amounts. */
  function Saturate(p: Problem, plan: Plan, c: Cell): (next: Plan)
    requires Shaped(p, plan) && p.InGrid(c)
    ensures Shaped(p, next)
    ensures next.supplyLeft[c.row] == 0 || next.demandLeft[c.col] == 0
    ensures next.supplyLeft[c.row] >= 0 && next.demandLeft[c.col] >= 0
  {
    Ship(p, plan, c, Min(plan.supplyLeft[c.row], plan.demandLeft[c.col]))
  }

  /** Each row's allocation plus the source's remaining supply is the
      source's original supply. */
  ghost predicate RowsBalance(p: Problem, plan: Plan)
    requires Shaped(p, plan)
  {
    |p.supplies| == p.sources
    && forall i :: 0 <= i < p.sources ==> RowSum(plan.alloc, i) + plan.supplyLeft[i] == p.supplies[i]
  }

  /** Each column's allocation plus the destination's remaining demand is the
      destination's original demand. */
  ghost predicate ColumnsBalance(p: Problem, plan: Plan)
    requires Shaped(p, plan)
  {
    |p.demands| == p.destinations
    && forall j :: 0 <= j < p.destinations ==>
         ColSum(plan.alloc, p.destinations, j) + plan.demandLeft[j] == p.demands[j]
  }

  /** The amount gone from the sources equals the amount gone to the
      destinations. */
  ghost predicate FlowsAgree(p: Problem, plan: Plan)
  {
    Sum(p.supplies) - Sum(plan.supplyLeft) == Sum(p.demands) - Sum(plan.demandLeft)
  }

  /** The bookkeeping every reachable state satisfies: rows and columns
      balance against supplies and demands, the running cost is the cost of
      the matrix, and the flows agree. */
  ghost predicate Accounted(p: Problem, plan: Plan)
  {
    && Shaped(p, plan)
    && RowsBalance(p, plan)
    && ColumnsBalance(p, plan)
    && plan.totalCost == TotalCost(plan.alloc, p.costs, p.destinations)
    && FlowsAgree(p, plan)
  }

  /** Non-negative allocations and working values. */
  ghost predicate Feasible(p: Problem, plan: Plan)
    requires Shaped(p, plan)
  {
    && NonNegative(plan.supplyLeft) && NonNegative(plan.demandLeft)
    && forall i, j :: 0 <= i < p.sources && 0 <= j < p.destinations ==> plan.alloc[i][j] >= 0
  }

  lemma StartAccounted(p: Problem)
    requires p.Valid()
    ensures Accounted(p, Start(p))
  {
    ZerosSums(p.sources, p.destinations);
    ZerosCost(p.sources, p.destinations, p.costs);
  }

  /** Shipping on a route that still holds zero keeps the books straight. */
  lemma ShipAccounted(p: Problem, plan: Plan, c: Cell, q: int)
    requires Accounted(p, plan) && p.InGrid(c)
    requires plan.alloc[c.row][c.col] == 0
    ensures Accounted(p, Ship(p, plan, c, q))
  {
    ShipRows(p, plan, c, q);
    ShipColumns(p, plan, c, q);
    ShipCost(p, plan, c, q);
    ShipFlows(p, plan, c, q);
  }

  lemma ShipRows(p: Problem, plan: Plan, c: Cell, q: int)
    requires Shaped(p, plan) && p.InGrid(c) && RowsBalance(p, plan)
    requires plan.alloc[c.row][c.col] == 0
    ensures RowsBalance(p, Ship(p, plan, c, q))
  {
    var next := Ship(p, plan, c, q);
    PutSums(plan.alloc, p.sources, p.destinations, c.row, c.col, q);
    forall i | 0 <= i < p.sources
      ensures RowSum(next.alloc, i) + next.supplyLeft[i] == p.supplies[i]
    {
      if i != c.row {
        assert next.alloc[i] == plan.alloc[i];
      }
    }
  }

  lemma ShipColumns(p: Problem, plan: Plan, c: Cell, q: int)
    requires Shaped(p, plan) && p.InGrid(c) && ColumnsBalance(p, plan)
    requires plan.alloc[c.row][c.col] == 0
    ensures ColumnsBalance(p, Ship(p, plan, c, q))
  {
    PutSums(plan.alloc, p.sources, p.destinations, c.row, c.col, q);
  }

  lemma ShipCost(p: Problem, plan: Plan, c: Cell, q: int)
    requires Shaped(p, plan) && p.InGrid(c)
    requires plan.totalCost == TotalCost(plan.alloc, p.costs, p.destinations)
    requires plan.alloc[c.row][c.col] == 0
    ensures Ship(p, plan, c, q).totalCost == TotalCost(Ship(p, plan, c, q).alloc, p.costs, p.destinations)
  {
    PutCost(plan.alloc, p.costs, p.destinations, c.row, c.col, q);
  }

  lemma ShipFlows(p: Problem, plan: Plan, c: Cell, q: int)
    requires Shaped(p, plan) && p.InGrid(c) && FlowsAgree(p, plan)
    ensures FlowsAgree(p, Ship(p, plan, c, q))
  {
    SumUpdate(plan.supplyLeft, c.row, plan.supplyLeft[c.row] - q);
    SumUpdate(plan.demandLeft, c.col, plan.demandLeft[c.col] - q);
  }

  /** Shipping a quantity between zero and both remaining amounts keeps
      everything non-negative. */
  lemma ShipFeasible(p: Problem, plan: Plan, c: Cell, q: int)
    requires Shaped(p, plan) && p.InGrid(c) && Feasible(p, plan)
    requires 0 <= q <= plan.supplyLeft[c.row] && q <= plan.demandLeft[c.col]
    ensures Feasible(p, Ship(p, plan, c, q))
  {
  }

  /** No route has both a positive remaining supply and a positive remaining
      demand. */
  ghost predicate NoOpenRoute(p: Problem, plan: Plan)
    requires Shaped(p, plan)
  {
    forall i, j :: 0 <= i < p.sources && 0 <= j < p.destinations ==>
      !(plan.supplyLeft[i] > 0 && plan.demandLeft[j] > 0)
  }

  /** Once one side is used up, the side with the smaller total is used up
      entirely: a balanced instance ends with every supply and every demand
      at zero, an unbalanced one leaves only the larger side's excess. */
  lemma {:induction false} Exhaustion(p: Problem, plan: Plan)
    requires Accounted(p, plan)
    requires NonNegative(plan.supplyLeft) && NonNegative(plan.demandLeft)
    requires AllZero(plan.supplyLeft) || AllZero(plan.demandLeft)
    ensures Sum(p.supplies) <= Sum(p.demands) ==> AllZero(plan.supplyLeft)
    ensures Sum(p.supplies) >= Sum(p.demands) ==> AllZero(plan.demandLeft)
  {
    NonNegativeSum(plan.supplyLeft);
    NonNegativeSum(plan.demandLeft);
  }

  /** With non-negative working values, a state with no open route has used
      up one side completely. */
  lemma NoOpenRouteOneSide(p: Problem, plan: Plan)
    requires Shaped(p, plan) && NoOpenRoute(p, plan)
    requires NonNegative(plan.supplyLeft) && NonNegative(plan.demandLeft)
    ensures AllZero(plan.supplyLeft) || AllZero(plan.demandLeft)
  {
  }

  /** Every quantity is non-negative, no row ships more than its source's
      supply and no column receives more than its destination's demand. */
  ghost predicate WithinSupplyAndDemand(p: Problem, alloc: seq<seq<int>>)
  {
    && IsMatrix(alloc, p.sources, p.destinations)
    && |p.supplies| == p.sources && |p.demands| == p.destinations
    && (forall i, j :: 0 <= i < p.sources && 0 <= j < p.destinations ==> alloc[i][j] >= 0)
    && (forall i :: 0 <= i < p.sources ==> RowSum(alloc, i) <= p.supplies[i])
    && (forall j :: 0 <= j < p.destinations ==> ColSum(alloc, p.destinations, j) <= p.demands[j])
  }

  /** Every source ships exactly its supply and every destination receives
      exactly its demand. */
  ghost predicate MeetsExactly(p: Problem, alloc: seq<seq<int>>)
  {
    && IsMatrix(alloc, p.sources, p.destinations)
    && |p.supplies| == p.sources && |p.demands| == p.destinations
    && (forall i :: 0 <= i < p.sources ==> RowSum(alloc, i) == p.supplies[i])
    && (forall j :: 0 <= j < p.destinations ==> ColSum(alloc, p.destinations, j) == p.demands[j])
  }

  /** A straight, non-negative state respects supplies and demands, and one
      whose working values are all used up matches them exactly. */
  lemma WithinBounds(p: Problem, plan: Plan)
    requires Accounted(p, plan) && Feasible(p, plan)
    ensures WithinSupplyAndDemand(p, plan.alloc)
    ensures AllZero(plan.supplyLeft) && AllZero(plan.demandLeft) ==> MeetsExactly(p, plan.alloc)
  {
  }
}
