/** Integer sequences and row-major matrices: sums, row and column totals,
    and the cost of an allocation matrix against a flattened cost list. */
module Grid {

  /** Sum of all entries. */
  ghost function Sum(s: seq<int>): int
  {
    if |s| == 0 then 0 else Sum(s[..|s| - 1]) + s[|s| - 1]
  }

  ghost predicate AllZero(s: seq<int>)
  {
    forall k :: 0 <= k < |s| ==> s[k] == 0
  }

  ghost predicate NonNegative(s: seq<int>)
  {
    forall k :: 0 <= k < |s| ==> s[k] >= 0
  }

  /** Overwriting one entry shifts the sum by the difference. */
  lemma {:induction false} SumUpdate(s: seq<int>, k: nat, v: int)
    requires k < |s|
    ensures Sum(s[k := v]) == Sum(s) - s[k] + v
  {
    var last := |s| - 1;
    if k == last {
      assert s[k := v][..last] == s[..last];
    } else {
      assert s[k := v][..last] == s[..last][k := v];
      SumUpdate(s[..last], k, v);
    }
  }

  /** A non-negative sequence has a non-negative sum, and the sum is zero
      exactly when every entry is. */
  lemma {:induction false} NonNegativeSum(s: seq<int>)
    requires NonNegative(s)
    ensures Sum(s) >= 0
    ensures Sum(s) == 0 <==> AllZero(s)
  {
    if |s| > 0 {
      var last := |s| - 1;
      assert NonNegative(s[..last]) by {
        forall k | 0 <= k < last ensures s[..last][k] >= 0 {
          assert s[..last][k] == s[k];
        }
      }
      NonNegativeSum(s[..last]);
      if Sum(s) == 0 {
        forall k | 0 <= k < |s| ensures s[k] == 0 {
          if k < last {
            assert s[..last][k] == s[k];
          }
        }
      }
      if AllZero(s) {
        assert AllZero(s[..last]) by {
          forall k | 0 <= k < last ensures s[..last][k] == 0 {
            assert s[..last][k] == s[k];
          }
        }
      }
    }
  }

  /** Number of strictly positive entries. */
  ghost function CountPositive(s: seq<int>): nat
  {
    if |s| == 0 then 0
    else CountPositive(s[..|s| - 1]) + (if s[|s| - 1] > 0 then 1 else 0)
  }

  lemma {:induction false} CountPositiveUpdate(s: seq<int>, k: nat, v: int)
    requires k < |s|
    ensures CountPositive(s[k := v]) + (if s[k] > 0 then 1 else 0)
         == CountPositive(s) + (if v > 0 then 1 else 0)
  {
    var last := |s| - 1;
    if k == last {
      assert s[k := v][..last] == s[..last];
    } else {
      assert s[k := v][..last] == s[..last][k := v];
      CountPositiveUpdate(s[..last], k, v);
    }
  }

  /** g has m rows of n entries each. */
  ghost predicate IsMatrix(g: seq<seq<int>>, m: nat, n: nat)
  {
    |g| == m && forall r :: 0 <= r < m ==> |g[r]| == n
  }

  /** The m-by-n matrix of zeros. */
  function Zeros(m: nat, n: nat): (g: seq<seq<int>>)
    ensures IsMatrix(g, m, n)
    ensures forall r, c :: 0 <= r < m && 0 <= c < n ==> g[r][c] == 0
  {
    seq(m, _ => seq(n, _ => 0))
  }

  /** g with entry (r, c) overwritten by v. */
  function Put(g: seq<seq<int>>, r: nat, c: nat, v: int): (h: seq<seq<int>>)
    requires r < |g| && c < |g[r]|
  {
    g[r := g[r][c := v]]
  }

  ghost function RowSum(g: seq<seq<int>>, r: nat): int
    requires r < |g|
  {
    Sum(g[r])
  }

  ghost function Column(g: seq<seq<int>>, n: nat, c: nat): seq<int>
    requires IsMatrix(g, |g|, n) && c < n
  {
    seq(|g|, r requires 0 <= r < |g| => g[r][c])
  }

  ghost function ColSum(g: seq<seq<int>>, n: nat, c: nat): int
    requires IsMatrix(g, |g|, n) && c < n
  {
    Sum(Column(g, n, c))
  }

  /** Overwriting entry (r, c) changes row r's total and column c's total by
      the difference, and no other row or column total. */
  lemma PutSums(g: seq<seq<int>>, m: nat, n: nat, r: nat, c: nat, v: int)
    requires IsMatrix(g, m, n) && r < m && c < n
    ensures IsMatrix(Put(g, r, c, v), m, n)
    ensures RowSum(Put(g, r, c, v), r) == RowSum(g, r) - g[r][c] + v
    ensures forall r' :: 0 <= r' < m && r' != r ==> Put(g, r, c, v)[r'] == g[r']
    ensures ColSum(Put(g, r, c, v), n, c) == ColSum(g, n, c) - g[r][c] + v
    ensures forall c' :: 0 <= c' < n && c' != c ==>
              ColSum(Put(g, r, c, v), n, c') == ColSum(g, n, c')
  {
    var h := Put(g, r, c, v);
    SumUpdate(g[r], c, v);
    assert Column(h, n, c) == Column(g, n, c)[r := v];
    SumUpdate(Column(g, n, c), r, v);
    forall c' | 0 <= c' < n && c' != c
      ensures ColSum(h, n, c') == ColSum(g, n, c')
    {
      assert Column(h, n, c') == Column(g, n, c');
    }
  }

  /** Unit cost of route (r, c) in a row-major list with n entries per row;
      positions past the end of the list cost nothing. */
  function CostAt(costs: seq<int>, n: nat, r: nat, c: nat): (cost: int)
  {
    if r * n + c < |costs| then costs[r * n + c] else 0
  }

  /** Cost of row r of an allocation: the sum of quantity times unit cost. */
  ghost function RowCost(row: seq<int>, costs: seq<int>, n: nat, r: nat): int
  {
    if |row| == 0 then 0
    else RowCost(row[..|row| - 1], costs, n, r) + row[|row| - 1] * CostAt(costs, n, r, |row| - 1)
  }

  /** Cost of a whole allocation matrix: the sum over every cell (r, c) of
      g[r][c] times the unit cost of route (r, c). */
  ghost function TotalCost(g: seq<seq<int>>, costs: seq<int>, n: nat): int
  {
    if |g| == 0 then 0
    else TotalCost(g[..|g| - 1], costs, n) + RowCost(g[|g| - 1], costs, n, |g| - 1)
  }

  lemma {:induction false} RowCostUpdate(row: seq<int>, costs: seq<int>, n: nat, r: nat, c: nat, v: int)
    requires c < |row|
    ensures RowCost(row[c := v], costs, n, r)
         == RowCost(row, costs, n, r) + (v - row[c]) * CostAt(costs, n, r, c)
  {
    var last := |row| - 1;
    if c == last {
      assert row[c := v][..last] == row[..last];
      assert v * CostAt(costs, n, r, c) - row[c] * CostAt(costs, n, r, c)
          == (v - row[c]) * CostAt(costs, n, r, c);
    } else {
      assert row[c := v][..last] == row[..last][c := v];
      RowCostUpdate(row[..last], costs, n, r, c, v);
    }
  }

  lemma {:induction false} TotalCostUpdate(g: seq<seq<int>>, costs: seq<int>, n: nat, r: nat, row: seq<int>)
    requires r < |g|
    ensures TotalCost(g[r := row], costs, n)
         == TotalCost(g, costs, n) - RowCost(g[r], costs, n, r) + RowCost(row, costs, n, r)
  {
    var last := |g| - 1;
    if r == last {
      assert g[r := row][..last] == g[..last];
    } else {
      assert g[r := row][..last] == g[..last][r := row];
      TotalCostUpdate(g[..last], costs, n, r, row);
    }
  }

  /** Overwriting entry (r, c) changes the total cost by the difference times
      the unit cost of that route. */
  lemma PutCost(g: seq<seq<int>>, costs: seq<int>, n: nat, r: nat, c: nat, v: int)
    requires r < |g| && c < |g[r]|
    ensures TotalCost(Put(g, r, c, v), costs, n)
         == TotalCost(g, costs, n) + (v - g[r][c]) * CostAt(costs, n, r, c)
  {
    RowCostUpdate(g[r], costs, n, r, c, v);
    TotalCostUpdate(g, costs, n, r, g[r][c := v]);
  }

  lemma {:induction false} RowCostZero(row: seq<int>, costs: seq<int>, n: nat, r: nat)
    requires AllZero(row)
    ensures RowCost(row, costs, n, r) == 0
  {
    if |row| > 0 {
      RowCostZero(row[..|row| - 1], costs, n, r);
    }
  }

  /** The zero matrix costs nothing. */
  lemma {:induction false} ZerosCost(m: nat, n: nat, costs: seq<int>)
    ensures TotalCost(Zeros(m, n), costs, n) == 0
  {
    if m > 0 {
      assert Zeros(m, n)[..m - 1] == Zeros(m - 1, n);
      ZerosCost(m - 1, n, costs);
      RowCostZero(Zeros(m, n)[m - 1], costs, n, m - 1);
    }
  }

  /** Every row and every column of the zero matrix sums to zero. */
  lemma ZerosSums(m: nat, n: nat)
    ensures forall r :: 0 <= r < m ==> RowSum(Zeros(m, n), r) == 0
    ensures forall c :: 0 <= c < n ==> ColSum(Zeros(m, n), n, c) == 0
  {
    var z := Zeros(m, n);
    forall r | 0 <= r < m ensures RowSum(z, r) == 0 {
      NonNegativeSum(z[r]);
    }
    forall c | 0 <= c < n ensures ColSum(z, n, c) == 0 {
      NonNegativeSum(Column(z, n, c));
    }
  }
}
