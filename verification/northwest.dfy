/** The Northwest-Corner method: a cursor starts at route (0, 0), saturates
    the route under it, and moves down past an exhausted source and right past
    an exhausted destination (both in the same step when both run out). */
module NorthWestCorner {
  import opened Grid
  import opened Transport

  /** The loop's position: the route under the cursor and the plan built so far. */
  datatype Cursor = Cursor(at: Cell, state: Plan)

  /** One pass of the loop body at cursor (i, j): ship the smaller remaining
      amount on route (i, j), then advance the row if the source is used up
      and, separately, the column if the destination is used up. */
  function Step(p: Problem, i: nat, j: nat, plan: Plan): (r: Cursor)
    requires Shaped(p, plan) && i < p.sources && j < p.destinations
    ensures Shaped(p, r.state)
    ensures i <= r.at.row <= i + 1 && j <= r.at.col <= j + 1
    ensures r.at.row + r.at.col > i + j
    ensures r.at.row > i <==> r.state.supplyLeft[i] == 0
    ensures r.at.col > j <==> r.state.demandLeft[j] == 0
  {
    var next := Saturate(p, plan, Cell(i, j));
    Cursor(Cell(if next.supplyLeft[i] == 0 then i + 1 else i,
                if next.demandLeft[j] == 0 then j + 1 else j),
           next)
  }

  /** The state the loop reaches when it starts at cursor (i, j) in `plan`. */
  function RunFrom(p: Problem, i: nat, j: nat, plan: Plan): (r: Plan)
    requires Shaped(p, plan) && i <= p.sources && j <= p.destinations
    decreases p.sources + p.destinations - i - j
  {
    if i < p.sources && j < p.destinations then
      var next := Step(p, i, j, plan);
      RunFrom(p, next.at.row, next.at.col, next.state)
    else plan
  }

  /** Reference result of the Northwest-Corner method on p. */
  function Run(p: Problem): (r: Plan)
    requires p.Valid()
  {
    RunFrom(p, 0, 0, Start(p))
  }

  /** d lies one step right, down, or diagonally down-right of c. */
  ghost predicate Adjacent(c: Cell, d: Cell)
  {
    (d.row == c.row || d.row == c.row + 1)
    && (d.col == c.col || d.col == c.col + 1)
    && d != c
  }

  /** A path that starts at (0, 0) and moves by single steps right and down. */
  ghost predicate Staircase(path: seq<Cell>)
  {
    (|path| > 0 ==> path[0] == Cell(0, 0))
    && forall k :: 0 < k < |path| ==> Adjacent(path[k - 1], path[k])
  }

  /** Along a staircase row + col strictly increases, so no route is visited
      twice. */
  lemma {:induction false} StaircaseVisitsOnce(path: seq<Cell>)
    requires Staircase(path)
    ensures forall k, l :: 0 <= k < l < |path| ==>
              path[k].row <= path[l].row && path[k].col <= path[l].col
              && path[k].row + path[k].col < path[l].row + path[l].col
    ensures forall k, l :: 0 <= k < l < |path| ==> path[k] != path[l]
  {
    if |path| > 1 {
      var prefix := path[..|path| - 1];
      assert Staircase(prefix) by {
        forall k | 0 < k < |prefix| ensures Adjacent(prefix[k - 1], prefix[k]) {
          assert prefix[k - 1] == path[k - 1] && prefix[k] == path[k];
        }
      }
      StaircaseVisitsOnce(prefix);
      var last := |path| - 1;
      forall k | 0 <= k < last
        ensures path[k].row <= path[last].row && path[k].col <= path[last].col
                && path[k].row + path[k].col < path[last].row + path[last].col
      {
        assert Adjacent(path[last - 1], path[last]);
        if k < last - 1 {
          assert prefix[k] == path[k] && prefix[last - 1] == path[last - 1];
        }
      }
    }
  }

  /** What holds at the top of every loop iteration with cursor (i, j):
      the books are straight, every source above row i and every destination
      left of column j is used up, nothing has been shipped at or beyond the
      cursor, and everything is non-negative when the inputs are. */
  ghost predicate Swept(p: Problem, i: nat, j: nat, plan: Plan)
  {
    && i <= p.sources && j <= p.destinations
    && Accounted(p, plan)
    && (forall a :: 0 <= a < i ==> plan.supplyLeft[a] == 0)
    && (forall b :: 0 <= b < j ==> plan.demandLeft[b] == 0)
    && (forall a, b :: i <= a < p.sources && j <= b < p.destinations ==> plan.alloc[a][b] == 0)
    && (NonNegative(p.supplies) && NonNegative(p.demands) ==> Feasible(p, plan))
  }

  /** The routes visited before reaching cursor (i, j) form a staircase that
      ends one step before (i, j), and every non-zero route is on it. */
  ghost predicate Traced(p: Problem, i: nat, j: nat, plan: Plan, path: seq<Cell>)
    requires Shaped(p, plan)
  {
    && Staircase(path)
    && (forall k :: 0 <= k < |path| ==> p.InGrid(path[k]))
    && (path == [] ==> i == 0 && j == 0)
    && (path != [] ==>
          Adjacent(path[|path| - 1], Cell(i, j))
          && |path| <= path[|path| - 1].row + path[|path| - 1].col + 1)
    && (forall a, b :: 0 <= a < p.sources && 0 <= b < p.destinations && plan.alloc[a][b] != 0 ==>
          Cell(a, b) in path)
  }

  lemma StartSwept(p: Problem)
    requires p.Valid()
    ensures Swept(p, 0, 0, Start(p)) && Traced(p, 0, 0, Start(p), [])
  {
    StartAccounted(p);
  }

  /** One loop iteration preserves Swept. */
  lemma StepSwept(p: Problem, i: nat, j: nat, plan: Plan)
    requires Swept(p, i, j, plan) && i < p.sources && j < p.destinations
    ensures Swept(p, Step(p, i, j, plan).at.row, Step(p, i, j, plan).at.col, Step(p, i, j, plan).state)
  {
    var q := Min(plan.supplyLeft[i], plan.demandLeft[j]);
    ShipAccounted(p, plan, Cell(i, j), q);
    if NonNegative(p.supplies) && NonNegative(p.demands) {
      ShipFeasible(p, plan, Cell(i, j), q);
    }
    PutSums(plan.alloc, p.sources, p.destinations, i, j, q);
  }

  /** One loop iteration extends the visited path by the cursor's route. */
  lemma StepTraced(p: Problem, i: nat, j: nat, plan: Plan, path: seq<Cell>)
    requires Swept(p, i, j, plan) && i < p.sources && j < p.destinations
    requires Traced(p, i, j, plan, path)
    ensures Traced(p, Step(p, i, j, plan).at.row, Step(p, i, j, plan).at.col, Step(p, i, j, plan).state,
                   path + [Cell(i, j)])
  {
    var r := Step(p, i, j, plan);
    var path' := path + [Cell(i, j)];
    var q := Min(plan.supplyLeft[i], plan.demandLeft[j]);
    PutSums(plan.alloc, p.sources, p.destinations, i, j, q);
    assert Staircase(path') by {
      forall k | 0 < k < |path'| ensures Adjacent(path'[k - 1], path'[k]) {
        if k < |path| {
          assert path'[k - 1] == path[k - 1] && path'[k] == path[k];
        }
      }
    }
    forall a, b | 0 <= a < p.sources && 0 <= b < p.destinations && r.state.alloc[a][b] != 0
      ensures Cell(a, b) in path'
    {
      if a != i || b != j {
        assert r.state.alloc[a][b] == plan.alloc[a][b];
      }
    }
  }

  /** The Northwest-Corner allocator. Besides the allocation it returns the
      working copies as the loop leaves them and, as a ghost, the routes the
      cursor visited. */
  method Allocate(p: Problem) returns (plan: Plan, ghost path: seq<Cell>)
    requires p.Valid()
    ensures plan == Run(p)
    ensures Accounted(p, plan)
    // the cursor walks a staircase inside the grid, at most m + n - 1 steps
    ensures Staircase(path)
    ensures forall k :: 0 <= k < |path| ==> p.InGrid(path[k])
    ensures p.sources == 0 || p.destinations == 0 ==> path == []
    ensures p.sources > 0 && p.destinations > 0 ==>
              0 < |path| <= p.sources + p.destinations - 1
    // every route off the visited path keeps quantity zero
    ensures forall a, b ::
              (0 <= a < p.sources && 0 <= b < p.destinations && plan.alloc[a][b] != 0) ==>
              Cell(a, b) in path
    // the loop stops with every source or every destination used up
    ensures AllZero(plan.supplyLeft) || AllZero(plan.demandLeft)
    ensures NonNegative(p.supplies) && NonNegative(p.demands) ==> Feasible(p, plan)
    ensures (NonNegative(p.supplies) && NonNegative(p.demands) && Sum(p.supplies) <= Sum(p.demands)) ==>
              AllZero(plan.supplyLeft)
    ensures (NonNegative(p.supplies) && NonNegative(p.demands) && Sum(p.supplies) >= Sum(p.demands)) ==>
              AllZero(plan.demandLeft)
  {
    var m, n := p.sources, p.destinations;
    plan := Start(p);
    StartSwept(p);
    path := [];
    var i, j := 0, 0;
    while i < m && j < n
      invariant Swept(p, i, j, plan)
      invariant Traced(p, i, j, plan, path)
      invariant RunFrom(p, i, j, plan) == Run(p)
      decreases m + n - i - j
    {
      var r := Step(p, i, j, plan);
      StepSwept(p, i, j, plan);
      StepTraced(p, i, j, plan, path);
      path := path + [Cell(i, j)];
      i, j, plan := r.at.row, r.at.col, r.state;
    }
    if NonNegative(p.supplies) && NonNegative(p.demands) {
      Exhaustion(p, plan);
    }
  }
}
