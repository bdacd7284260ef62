/** The solve step: check the dimensions, then run both allocators on the
    same validated instance, each on its own copy of the inputs. */
module Solver {
  import opened Grid
  import opened Transport
  import NorthWestCorner
  import LeastCost

  /** Both methods' results, Northwest-Corner first. */
  datatype Report = Report(northWest: Solution, leastCost: Solution)

  method Solve(numSources: int, numDestinations: int,
               supplies: seq<int>, demands: seq<int>, costs: seq<int>) returns (r: Result<Report, string>)
    ensures r.Failure? <==> !(|supplies| == numSources && |demands| == numDestinations
                              && |costs| == numSources * numDestinations)
    ensures r.Failure? ==> r.error == DimensionError
    // each allocator sees the original inputs, untouched by the other
    ensures r.Success? ==>
              && CheckDimensions(numSources, numDestinations, supplies, demands, costs).Success?
              && var p := CheckDimensions(numSources, numDestinations, supplies, demands, costs).value;
                 && r.value.northWest == NorthWestCorner.Run(p).Result()
                 && r.value.leastCost == LeastCost.Run(p).Result()
    ensures r.Success? ==>
              && r.value.northWest.totalCost == TotalCost(r.value.northWest.alloc, costs, numDestinations)
              && r.value.leastCost.totalCost == TotalCost(r.value.leastCost.alloc, costs, numDestinations)
    ensures r.Success? && NonNegative(supplies) && NonNegative(demands) ==>
              var p := Problem(numSources, numDestinations, supplies, demands, costs);
              && WithinSupplyAndDemand(p, r.value.northWest.alloc)
              && WithinSupplyAndDemand(p, r.value.leastCost.alloc)
    ensures r.Success? && NonNegative(supplies) && NonNegative(demands) && Sum(supplies) == Sum(demands) ==>
              var p := Problem(numSources, numDestinations, supplies, demands, costs);
              && MeetsExactly(p, r.value.northWest.alloc)
              && MeetsExactly(p, r.value.leastCost.alloc)
  {
    var checked := CheckDimensions(numSources, numDestinations, supplies, demands, costs);
    if checked.Failure? {
      return Failure(checked.error);
    }
    var p := checked.value;
    var northWest;
    ghost var path;
    northWest, path := NorthWestCorner.Allocate(p);
    var leastCost := LeastCost.Allocate(p);
    if NonNegative(supplies) && NonNegative(demands) {
      WithinBounds(p, northWest);
      WithinBounds(p, leastCost);
    }
    r := Success(Report(northWest.Result(), leastCost.Result()));
  }

  /** Two sources, two destinations: supplies 20 and 30, demands 25 and 25,
      unit costs 8, 6 (first row) and 10, 9 (second row). */
  function Example(): Problem
  {
    Problem(2, 2, [20, 30], [25, 25], [8, 6, 10, 9])
  }

  lemma ExampleStart()
    ensures Example().Valid()
    ensures Start(Example()) == Plan([[0, 0], [0, 0]], 0, [20, 30], [25, 25])
  {
    var z := Zeros(2, 2);
    assert z[0] == [0, 0] && z[1] == [0, 0];
  }

  /** Northwest-Corner on the example: 20 on (0, 0), 5 on (1, 0), 25 on
      (1, 1), total cost 20 * 8 + 5 * 10 + 25 * 9 = 435. */
  lemma NorthWestExample()
    ensures Example().Valid()
    ensures NorthWestCorner.Run(Example()).Result() == Solution([[20, 0], [5, 25]], 435)
  {
    var p := Example();
    ExampleStart();
    var s0 := Start(p);
    var s1 := Plan([[20, 0], [0, 0]], 160, [0, 30], [5, 25]);
    var s2 := Plan([[20, 0], [5, 0]], 210, [0, 25], [0, 25]);
    var s3 := Plan([[20, 0], [5, 25]], 435, [0, 0], [0, 0]);
    assert [0, 0][0 := 20] == [20, 0];
    assert Saturate(p, s0, Cell(0, 0)) == s1;
    assert NorthWestCorner.Step(p, 0, 0, s0) == NorthWestCorner.Cursor(Cell(1, 0), s1);
    assert [0, 0][0 := 5] == [5, 0];
    assert Saturate(p, s1, Cell(1, 0)) == s2;
    assert NorthWestCorner.Step(p, 1, 0, s1) == NorthWestCorner.Cursor(Cell(1, 1), s2);
    assert [5, 0][1 := 25] == [5, 25];
    assert Saturate(p, s2, Cell(1, 1)) == s3;
    assert NorthWestCorner.Step(p, 1, 1, s2) == NorthWestCorner.Cursor(Cell(2, 2), s3);
  }

  /** The example has exactly the four routes (0, 0), (0, 1), (1, 0), (1, 1). */
  lemma ExampleRoutes(d: Cell)
    requires Example().InGrid(d)
    ensures d == Cell(0, 0) || d == Cell(0, 1) || d == Cell(1, 0) || d == Cell(1, 1)
  {
  }

  /** Least-Cost on the example: 20 on (0, 1) at cost 6, then 5 on (1, 1) at
      cost 9, then 25 on (1, 0) at cost 10; total 415. */
  lemma LeastCostExample()
    ensures Example().Valid()
    ensures LeastCost.Run(Example()).Result() == Solution([[0, 20], [25, 5]], 415)
  {
    var p := Example();
    ExampleStart();
    var s0 := Start(p);
    assert p.UnitCost(Cell(0, 0)) == 8 && p.UnitCost(Cell(0, 1)) == 6;
    assert p.UnitCost(Cell(1, 0)) == 10 && p.UnitCost(Cell(1, 1)) == 9;
    var s1 := Plan([[0, 20], [0, 0]], 120, [0, 30], [25, 5]);
    var s2 := Plan([[0, 20], [0, 5]], 165, [0, 25], [25, 0]);
    var s3 := Plan([[0, 20], [25, 5]], 415, [0, 0], [0, 0]);

    assert LeastCost.IsSelected(p, s0.supplyLeft, s0.demandLeft, Cell(0, 1)) by {
      forall d | p.InGrid(d) ensures p.UnitCost(Cell(0, 1)) <= p.UnitCost(d) {
        ExampleRoutes(d);
      }
    }
    LeastCost.CheapestIsSelected(p, s0.supplyLeft, s0.demandLeft, Cell(0, 1));
    assert [0, 0][1 := 20] == [0, 20];
    assert Saturate(p, s0, Cell(0, 1)) == s1;

    assert LeastCost.IsSelected(p, s1.supplyLeft, s1.demandLeft, Cell(1, 1)) by {
      forall d | p.InGrid(d) && LeastCost.IsOpen(s1.supplyLeft, s1.demandLeft, d)
        ensures d == Cell(1, 0) || d == Cell(1, 1)
      {
        ExampleRoutes(d);
      }
    }
    LeastCost.CheapestIsSelected(p, s1.supplyLeft, s1.demandLeft, Cell(1, 1));
    assert [0, 0][1 := 5] == [0, 5];
    assert Saturate(p, s1, Cell(1, 1)) == s2;

    assert LeastCost.IsSelected(p, s2.supplyLeft, s2.demandLeft, Cell(1, 0)) by {
      forall d | p.InGrid(d) && LeastCost.IsOpen(s2.supplyLeft, s2.demandLeft, d)
        ensures d == Cell(1, 0)
      {
        ExampleRoutes(d);
      }
    }
    LeastCost.CheapestIsSelected(p, s2.supplyLeft, s2.demandLeft, Cell(1, 0));
    assert [0, 5][0 := 25] == [25, 5];
    assert Saturate(p, s2, Cell(1, 0)) == s3;

    assert LeastCost.NoOpenCell(p, s3.supplyLeft, s3.demandLeft);
  }

  lemma SingleRouteStart(supply: int, demand: int, cost: int)
    ensures Problem(1, 1, [supply], [demand], [cost]).Valid()
    ensures Start(Problem(1, 1, [supply], [demand], [cost])) == Plan([[0]], 0, [supply], [demand])
  {
    assert Zeros(1, 1)[0] == [0];
  }

  /** One source and one destination: with non-negative inputs both methods
      ship min(supply, demand) on the only route, and so agree exactly. */
  lemma SingleRouteAgreement(supply: int, demand: int, cost: int)
    requires supply >= 0 && demand >= 0
    ensures Problem(1, 1, [supply], [demand], [cost]).Valid()
    ensures NorthWestCorner.Run(Problem(1, 1, [supply], [demand], [cost])).Result()
         == Solution([[Min(supply, demand)]], Min(supply, demand) * cost)
    ensures LeastCost.Run(Problem(1, 1, [supply], [demand], [cost])).Result()
         == NorthWestCorner.Run(Problem(1, 1, [supply], [demand], [cost])).Result()
  {
    var p := Problem(1, 1, [supply], [demand], [cost]);
    SingleRouteStart(supply, demand, cost);
    var s0 := Start(p);
    var q := Min(supply, demand);
    var s1 := Plan([[q]], q * cost, [supply - q], [demand - q]);
    assert p.UnitCost(Cell(0, 0)) == cost;
    assert [0][0 := q] == [q];
    assert Saturate(p, s0, Cell(0, 0)) == s1;
    var r := NorthWestCorner.Step(p, 0, 0, s0);
    assert r.state == s1 && (r.at.row == 1 || r.at.col == 1);
    assert NorthWestCorner.RunFrom(p, r.at.row, r.at.col, s1) == s1;
    if supply > 0 && demand > 0 {
      assert LeastCost.IsSelected(p, s0.supplyLeft, s0.demandLeft, Cell(0, 0));
      LeastCost.CheapestIsSelected(p, s0.supplyLeft, s0.demandLeft, Cell(0, 0));
      assert LeastCost.NoOpenCell(p, s1.supplyLeft, s1.demandLeft);
      assert LeastCost.RunFrom(p, s1) == s1;
    } else {
      assert LeastCost.NoOpenCell(p, s0.supplyLeft, s0.demandLeft);
      assert LeastCost.Run(p) == s0;
    }
  }

  /** The agreement needs non-negative inputs: with supply -5 and demand 3,
      Northwest-Corner ships -5 while Least-Cost, which only uses routes
      whose two ends are positive, ships nothing. */
  lemma SingleRouteNegativeSupply(cost: int)
    ensures Problem(1, 1, [-5], [3], [cost]).Valid()
    ensures NorthWestCorner.Run(Problem(1, 1, [-5], [3], [cost])).alloc == [[-5]]
    ensures LeastCost.Run(Problem(1, 1, [-5], [3], [cost])).alloc == [[0]]
  {
    var p := Problem(1, 1, [-5], [3], [cost]);
    SingleRouteStart(-5, 3, cost);
    var s0 := Start(p);
    var s1 := Plan([[-5]], -5 * cost, [0], [8]);
    assert p.UnitCost(Cell(0, 0)) == cost;
    assert [0][0 := -5] == [-5];
    assert Saturate(p, s0, Cell(0, 0)) == s1;
    var r := NorthWestCorner.Step(p, 0, 0, s0);
    assert r == NorthWestCorner.Cursor(Cell(1, 0), s1);
    assert NorthWestCorner.RunFrom(p, 1, 0, s1) == s1;
    assert LeastCost.NoOpenCell(p, s0.supplyLeft, s0.demandLeft);
  }
}
