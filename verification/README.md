# Transportation problem: Northwest-Corner and Least-Cost allocators

This project models the computational core of TransPro, a small desktop tool
for the classical transportation problem. The tool reads a number of sources
`m`, a number of destinations `n`, one supply per source, one demand per
destination, and a row-major list of unit costs, where route `(i, j)` costs
`costs[i*n + j]`. It checks the dimensions and then computes two initial
feasible solutions, each an allocation matrix with its total cost:

- **Northwest-Corner** (`north_west`). A cursor starts at route `(0, 0)`.
  Each step ships the smaller of the remaining supply and the remaining
  demand on the cursor's route. The cursor then moves down if the source is
  used up and, as a separate check, right if the destination is used up.
- **Least-Cost** (`least_cost`). Each round scans every route in row-major
  order for the cheapest route whose source and destination both still have
  a positive amount left. The comparison is strict, so the first minimum
  wins. That route is saturated in the same way. The loop stops when no
  such route is left.

The model is written in Dafny:

- `grid.dfy` (`Grid`): sums, counts of positive entries, row and column
  totals, and the total cost of a matrix against the flat cost list.
- `transport.dfy` (`Transport`): the problem instance and the dimension
  check. It also holds the allocator state `Plan`, which is the matrix, the
  running cost, and the private working copies of the supplies and demands.
  `Ship` and `Saturate` are the shipping step that both allocators share.
  The module also states the bookkeeping facts that this step preserves.
- `northwest.dfy` (`NorthWestCorner`): the loop body `Step`, a recursive
  reference `Run`, and `Allocate`, the `while` loop that proves its
  properties through invariants.
- `leastcost.dfy` (`LeastCost`): the row-major scan with the `Option`-based
  running minimum, the declarative selection rule, a reference `Run`, and
  `Allocate`.
- `solver.dfy` (`Solver`): the solve step, which checks dimensions and then
  runs both allocators on the same validated inputs. It also holds the worked
  2×2 example and the single-route lemmas.

Each `Allocate` method is proved equal to its reference `Run` function. That
makes both allocators deterministic, so the concrete examples can be stated
as lemmas about `Run`.

## Model

| member | source | states |
|---|---|---|
| Transport.CheckDimensions | TransPro.py:59-60 | Succeeds exactly when there are `m` supplies, `n` demands and `m*n` costs. On success the instance carries the inputs unchanged. Otherwise it fails with "Invalid input dimensions." |
| Transport.UnitCostInRange | TransPro.py:85 | In a validated instance, each route's cost index `i*n + j` lies inside the cost list, so the cost read is `costs[i*n + j]`. |
| Transport.Saturate | TransPro.py:82-88 | Shipping `min(supply left, demand left)` on a route leaves at least one of the two at exactly 0 and both at 0 or more, for any integers. |
| Transport.ShipAccounted | TransPro.py:83-88 | Assigning `q` to a route that still holds 0 and taking `q` off both working values keeps row totals plus remaining supply equal to the supplies. The same holds for columns and demands. The running cost stays equal to the sum of quantity × unit cost over all cells. |
| Transport.Exhaustion | TransPro.py:81 | Once one side is used up and the working values are non-negative, the side with the smaller total is all zero. A balanced instance ends with every supply and demand at 0. An unbalanced one leaves a remainder only on the larger side. |
| Transport.NoOpenRouteOneSide | TransPro.py:107-112 | When no route has both ends positive and the working values are non-negative, every supply or every demand is 0. |
| Transport.WithinBounds | TransPro.py:87-88 | A non-negative, balanced-books state ships no more from any row than its supply and delivers no more to any column than its demand. It matches both exactly when both sides are used up. |
| NorthWestCorner.Step | TransPro.py:82-93 | One iteration moves the cursor by at most one row and one column, and always by at least one. The row advances exactly when the source reaches 0, and the column exactly when the destination reaches 0. |
| NorthWestCorner.StaircaseVisitsOnce | TransPro.py:79-93 | Along the cursor's staircase path the row and column never decrease and `row + col` strictly increases, so no route is visited, or written, twice. |
| NorthWestCorner.StepSwept | TransPro.py:81-93 | Each iteration keeps the books balanced and keeps every source above the cursor and every destination left of it at 0. Nothing is shipped at or beyond the cursor, and the working values stay non-negative when the inputs are. |
| NorthWestCorner.StepTraced | TransPro.py:79-93 | Each iteration extends the visited path by the cursor's route, which keeps it a staircase from `(0, 0)` that ends one step before the cursor. Every non-zero route stays on it. |
| NorthWestCorner.Allocate | TransPro.py:75-95 | Computes the reference run for any integers. Row and column totals plus the remaining values equal the supplies and demands, and the returned cost is the sum of quantity × unit cost. The visited routes form a staircase of at most `m + n - 1` routes from `(0, 0)`, and every route off it is 0. The loop ends with every supply or every demand at 0. With non-negative inputs everything is non-negative, and the side with the smaller total is fully used up. |
| LeastCost.ScanFrom | TransPro.py:105-109 | Resuming the row-major scan with the best route among those already scanned yields the best route among all routes. The best route is the cheapest open one and, among equal costs, the first. |
| LeastCost.Cheapest | TransPro.py:101-111 | Returns nothing exactly when no route has a positive supply and a positive demand left. Otherwise it returns an open route of minimum cost, and every open route before it in row-major order costs strictly more. |
| LeastCost.CheapestIsSelected | TransPro.py:105-111 | The scan returns route `c` if and only if `c` meets the selection rule, in both directions, so at most one route meets the rule. |
| LeastCost.SaturateShrinks | TransPro.py:114-120 | Saturating an open route strictly lowers the number of positive supplies plus positive demands. This measure bounds the number of rounds. |
| LeastCost.SaturateSettled | TransPro.py:114-120 | Saturating the selected route keeps the books balanced. Every shipped quantity stays non-negative and lies on a route that is no longer open, so no route is written twice. A supply or demand that started non-negative stays non-negative. |
| LeastCost.Allocate | TransPro.py:97-122 | Computes the reference run and terminates for any integers. Conservation of rows and columns holds, and the returned cost is the sum of quantity × unit cost. Every quantity is at least 0. It stops exactly when no route has both ends positive. With non-negative inputs the side with the smaller total is fully used up. |
| Solver.Solve | TransPro.py:59-63 | Fails with "Invalid input dimensions." exactly when a length is wrong, and then runs no allocator. On success each allocator's result is its reference run on the original inputs, so neither sees the other's working copies. Each total cost is the sum of quantity × unit cost. With non-negative inputs both matrices respect supplies and demands. A balanced instance with non-negative inputs is met exactly by both. |
| Solver.NorthWestExample | TransPro.py:75-95 | Supplies `[20, 30]`, demands `[25, 25]` and costs `[8, 6, 10, 9]` give `[[20, 0], [5, 25]]` with cost 435. |
| Solver.LeastCostExample | TransPro.py:97-122 | The same instance gives `[[0, 20], [25, 5]]` with cost 415. |
| Solver.SingleRouteAgreement | TransPro.py:81-88 | With one source, one destination and non-negative amounts, both methods ship `min(supply, demand)` on the only route and return identical results. |
| Solver.SingleRouteNegativeSupply | TransPro.py:107 | With supply -5 and demand 3, Northwest-Corner ships -5 but Least-Cost ships nothing, so the agreement above needs non-negative inputs. |

## Left out

- The Tkinter window, entry widgets, result text box, error dialog and main
  loop. They are presentation only.
- Parsing the entry fields with `int(...)` and `split(',')`, and the error
  messages Python raises when parsing fails. This is library string
  behaviour. The model takes already-parsed integer sequences. One
  consequence: the parsed lists are never empty in the tool, so `m` and `n`
  are at least 1 there. The model also accepts `m = 0` or `n = 0`, where
  both allocators return at once.
- `format_matrix`, the text layout of the report. It is pure int-to-string
  formatting.
- `float('inf')` and the `-1` indices used as "nothing found yet" markers.
  They are replaced by an `Option` of a route, and "strictly cheaper than
  infinity" becomes "nothing found yet".
- The `.copy()` calls. Dafny sequences are values, so each allocator
  already works on its own copy. `Solver.Solve` states the effect instead:
  each result is the reference run on the original inputs.
- The working copies that the allocators leave behind are returned in
  `Plan` (`supplyLeft`, `demandLeft`). The tool discards them, but the
  conservation and exhaustion properties are stated about them.
- Non-negativity of the inputs is not checked by the tool, although the
  transportation problem is normally stated with non-negative amounts and
  at least one source and destination; the model follows the code. It accepts
  any integers: termination, conservation and the cost identity hold for
  all of them, and the bound and exhaustion properties are stated under
  non-negative inputs.
