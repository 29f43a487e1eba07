/** The exchange: its quote, and what a run of swaps at reserves that never move pays out. */
module Swap {
  import opened Arith
  import opened Sway
  import opened Wrappers

  // A reserve slot that is zero stands for a million tokens.
  function Reserve(slot: nat): (r: nat)
    ensures 0 < r
  {
    if slot == 0 then 1_000_000 else slot
  }

  function Denominator(r0: nat, amountIn: nat): (d: nat) {
    r0 * 1000 + amountIn * 997
  }

  function Quote(r0: nat, r1: nat, amountIn: nat): (out: int)
    requires 0 < r0
  {
    amountIn * 997 * r1 / Denominator(r0, amountIn)
  }

  // The constant-product rule, with the input counted at 99.7%.
  predicate KeepsProduct(r0: nat, r1: nat, amountIn: nat, out: int) {
    (r0 * 1000 + amountIn * 997) * (r1 - out) >= 1000 * (r0 * r1)
  }

  // The quote is the largest output the constant-product rule allows.
  lemma QuoteIsLargest(r0: nat, r1: nat, amountIn: nat, out: int)
    requires 0 < r0
    ensures out <= Quote(r0, r1, amountIn) <==> KeepsProduct(r0, r1, amountIn, out)
  {
    var d, n := Denominator(r0, amountIn), amountIn * 997 * r1;
    QuotientAtLeast(n, d, out);
    calc {
      d * (r1 - out);
      { Distribute(d, r1, -out); assert d * -out == -(d * out); }
      d * r1 - d * out;
      { assert d * r1 == (r0 * 1000) * r1 + (amountIn * 997) * r1; assert (r0 * 1000) * r1 == 1000 * (r0 * r1); }
      1000 * (r0 * r1) + n - d * out;
    }
  }

  lemma OutputBelowReserve(r0: nat, r1: nat, amountIn: nat)
    requires 0 < r0 && 0 < r1
    ensures 0 <= Quote(r0, r1, amountIn) < r1
  {
    QuoteIsLargest(r0, r1, amountIn, 0);
    QuoteIsLargest(r0, r1, amountIn, r1);
    assert Denominator(r0, amountIn) * (r1 - 0) == (r0 * 1000) * r1 + (amountIn * 997) * r1;
    assert (r0 * 1000) * r1 == 1000 * (r0 * r1) && (amountIn * 997) * r1 >= 0 && r0 * r1 > 0;
  }

  lemma QuoteMonotone(r0: nat, r1: nat, less: nat, more: nat)
    requires 0 < r0 && 0 < r1 && less <= more
    ensures Quote(r0, r1, less) <= Quote(r0, r1, more)
  {
    var out := Quote(r0, r1, less);
    OutputBelowReserve(r0, r1, less);
    QuoteIsLargest(r0, r1, less, out);
    MulMonotone(r1 - out, Denominator(r0, less), Denominator(r0, more));
    QuoteIsLargest(r0, r1, more, out);
  }

  // The product of the reserves does not fall, whatever the rounding.
  lemma ProductNeverFalls(r0: nat, r1: nat, amountIn: nat)
    requires 0 < r0 && 0 < r1
    ensures (r0 + amountIn) * (r1 - Quote(r0, r1, amountIn)) >= r0 * r1
  {
    var left := r1 - Quote(r0, r1, amountIn);
    OutputBelowReserve(r0, r1, amountIn);
    QuoteIsLargest(r0, r1, amountIn, Quote(r0, r1, amountIn));
    MulMonotone(left, Denominator(r0, amountIn), 1000 * (r0 + amountIn));
    assert left * (1000 * (r0 + amountIn)) == 1000 * ((r0 + amountIn) * left);
  }

  // ---------- Splitting a trade ----------

  // The reserves do not move, so two trades pay at least what one of their sum pays, but for one unit.
  lemma SplitInTwo(r0: nat, r1: nat, a: nat, b: nat)
    requires 0 < r0 && 0 < r1
    ensures Quote(r0, r1, a + b) <= Quote(r0, r1, a) + Quote(r0, r1, b) + 1
  {
    var na, nb := a * 997 * r1, b * 997 * r1;
    assert (a + b) * 997 * r1 == na + nb by {
      Distribute(r1, a * 997, b * 997);
    }
    MulMonotone(r1, 0, a * 997);
    MulMonotone(r1, 0, b * 997);
    SumOfQuotients(na, Denominator(r0, a), nb, Denominator(r0, b), Denominator(r0, a + b));
  }

  function Sum(xs: seq<nat>): (n: nat) {
    if xs == [] then 0 else Sum(xs[..|xs| - 1]) + xs[|xs| - 1]
  }

  // What the trades are paid at unmoved reserves.
  function Paid(r0: nat, r1: nat, trades: seq<nat>): (n: int)
    requires 0 < r0
  {
    if trades == [] then 0 else
      Paid(r0, r1, trades[..|trades| - 1]) + Quote(r0, r1, trades[|trades| - 1])
  }

  lemma {:induction false} SplitTrade(r0: nat, r1: nat, trades: seq<nat>)
    requires 0 < r0 && 0 < r1 && trades != []
    ensures Quote(r0, r1, Sum(trades)) <= Paid(r0, r1, trades) + |trades| - 1
  {
    var before, last := trades[..|trades| - 1], trades[|trades| - 1];
    if before != [] {
      SplitTrade(r0, r1, before);
      SplitInTwo(r0, r1, Sum(before), last);
    }
  }

  // ---------- What a run can pay out ----------

  // The share of the output reserve that a trade is worth before rounding.
  function Share(r0: nat, amountIn: nat): (x: real)
    requires 0 < r0
  {
    (amountIn * 997) as real / Denominator(r0, amountIn) as real
  }

  function Shares(r0: nat, trades: seq<nat>): (x: real)
    requires 0 < r0
  {
    if trades == [] then 0.0 else Shares(r0, trades[..|trades| - 1]) + Share(r0, trades[|trades| - 1])
  }

  function Product(r0: nat, trades: seq<nat>): (n: nat)
    requires 0 < r0
    ensures 0 < n
  {
    if trades == [] then 1 else
      PositiveProduct(Product(r0, trades[..|trades| - 1]), Denominator(r0, trades[|trades| - 1]));
      Product(r0, trades[..|trades| - 1]) * Denominator(r0, trades[|trades| - 1])
  }

  lemma PositiveProduct(x: nat, y: nat)
    requires 0 < x && 0 < y
    ensures 0 < x * y
  {
  }

  lemma RealBound(q: int, d: nat, n: nat, r: nat)
    requires 0 < d && d * q <= n * r
    ensures q as real <= n as real / d as real * r as real
  {
    var x := n as real / d as real;
    assert x * d as real == n as real;
    assert (d * q) as real == d as real * q as real && (n * r) as real == n as real * r as real;
    assert (x * r as real) * d as real == n as real * r as real;
    CancelReal(q as real, x * r as real, d as real);
  }

  lemma CancelReal(x: real, y: real, d: real)
    requires 0.0 < d && x * d <= y * d
    ensures x <= y
  {
  }

  lemma {:induction false} PaidAtMost(r0: nat, r1: nat, trades: seq<nat>)
    requires 0 < r0 && 0 < r1
    ensures Paid(r0, r1, trades) as real <= Shares(r0, trades) * r1 as real
  {
    if trades != [] {
      var before, last := trades[..|trades| - 1], trades[|trades| - 1];
      var d, n := Denominator(r0, last), last * 997;
      PaidAtMost(r0, r1, before);
      Quotient(n * r1, d);
      RealBound(Quote(r0, r1, last), d, n, r1);
      DistributeReal(Shares(r0, before), Share(r0, last), r1 as real);
    }
  }

  lemma DistributeReal(x: real, y: real, z: real)
    ensures (x + y) * z == x * z + y * z
  {
  }

  ghost predicate Divides(d: int, n: int) {
    exists k: int :: n == d * k
  }

  ghost predicate AllDivide(r0: nat, r1: int, trades: seq<nat>)
    requires 0 < r0
  {
    forall i :: 0 <= i < |trades| ==> Divides(Denominator(r0, trades[i]), r1)
  }

  // At a reserve that the denominator divides, nothing is lost to rounding.
  lemma ExactQuote(r0: nat, r1: nat, amountIn: nat)
    requires 0 < r0 && Divides(Denominator(r0, amountIn), r1)
    ensures Quote(r0, r1, amountIn) as real == Share(r0, amountIn) * r1 as real
  {
    ExactDivision(amountIn * 997, Denominator(r0, amountIn), r1);
  }

  lemma ExactDivision(n: nat, d: nat, r: nat)
    requires 0 < d && Divides(d, r)
    ensures (n * r / d) as real == n as real / d as real * r as real
  {
    var k: int :| r == d * k;
    var x := n as real / d as real;
    assert n * (d * k) == d * (n * k);
    ExactQuotient(d, n * k);
    assert x * d as real == n as real;
    assert (d * k) as real == d as real * k as real && (n * k) as real == n as real * k as real;
    Regroup(x, d as real, k as real);
  }

  lemma Regroup(x: real, y: real, z: real)
    ensures x * (y * z) == x * y * z
  {
  }

  lemma ExactQuotient(d: int, k: int)
    requires 0 < d
    ensures d * k / d == k
  {
    QuotientAtLeast(d * k, d, k);
    QuotientAtLeast(d * k, d, k + 1);
    Distribute(d, k, 1);
  }

  lemma {:induction false} PaidExactly(r0: nat, r1: nat, trades: seq<nat>)
    requires 0 < r0 && AllDivide(r0, r1, trades)
    ensures Paid(r0, r1, trades) as real == Shares(r0, trades) * r1 as real
  {
    if trades != [] {
      var before, last := trades[..|trades| - 1], trades[|trades| - 1];
      PaidExactly(r0, r1, before);
      ExactQuote(r0, r1, last);
      DistributeReal(Shares(r0, before), Share(r0, last), r1 as real);
    }
  }

  lemma DividesProduct(d: int, n: int, m: int)
    requires Divides(d, n)
    ensures Divides(d, n * m) && Divides(m, n * m)
  {
    var k: int :| n == d * k;
    assert n * m == d * (k * m);
    assert n * m == m * n;
  }

  lemma {:induction false} ProductDivides(r0: nat, trades: seq<nat>)
    requires 0 < r0
    ensures AllDivide(r0, Product(r0, trades), trades)
  {
    if trades != [] {
      var before, d := trades[..|trades| - 1], Denominator(r0, trades[|trades| - 1]);
      var p := Product(r0, before);
      ProductDivides(r0, before);
      assert p == 1 * p;
      DividesProduct(1, p, d);
      forall i | 0 <= i < |trades| ensures Divides(Denominator(r0, trades[i]), p * d) {
        if i < |before| {
          assert before[i] == trades[i];
          DividesProduct(Denominator(r0, before[i]), p, d);
        }
      }
    }
  }

  // Whatever the output reserve holds, the trades are paid no more.
  ghost predicate AlwaysWithin(r0: nat, trades: seq<nat>)
    requires 0 < r0
  {
    forall r1: nat :: 0 < r1 ==> Paid(r0, r1, trades) <= r1
  }

  lemma WithinAt(r0: nat, r1: nat, trades: seq<nat>)
    requires 0 < r0 && 0 < r1 && Shares(r0, trades) <= 1.0
    ensures Paid(r0, r1, trades) <= r1
  {
    PaidAtMost(r0, r1, trades);
    ScaleReal(Shares(r0, trades), r1 as real);
  }

  // Where nothing is lost to rounding, the payout is within the reserve exactly when the shares are.
  lemma ExactAt(r0: nat, r1: nat, trades: seq<nat>)
    requires 0 < r0 && 0 < r1 && AllDivide(r0, r1, trades)
    ensures Paid(r0, r1, trades) <= r1 <==> Shares(r0, trades) <= 1.0
  {
    PaidExactly(r0, r1, trades);
    WithinShare(Paid(r0, r1, trades), r1, Shares(r0, trades));
  }

  lemma WithinShare(paid: int, r: nat, x: real)
    requires 0 < r && paid as real == x * r as real
    ensures paid <= r <==> x <= 1.0
  {
    ScaleReal(x, r as real);
  }

  // A run of trades stays within the output reserve, whatever that reserve holds, exactly when the
  // shares of the trades add up to at most one.
  lemma RunWithinReserve(r0: nat, trades: seq<nat>)
    requires 0 < r0
    ensures AlwaysWithin(r0, trades) <==> Shares(r0, trades) <= 1.0
  {
    if Shares(r0, trades) <= 1.0 {
      forall r1: nat | 0 < r1 ensures Paid(r0, r1, trades) <= r1 {
        WithinAt(r0, r1, trades);
      }
    } else {
      ProductDivides(r0, trades);
      ExactAt(r0, Product(r0, trades), trades);
    }
  }

  lemma ScaleReal(x: real, y: real)
    requires 0.0 < y
    ensures x * y <= y <==> x <= 1.0
  {
  }

  // Two trades stay within the output reserve, whatever it holds, exactly when the product of their
  // inputs after the fee is at most the square of the input reserve.
  lemma TwoTradesWithinReserve(r0: nat, a: nat, b: nat)
    requires 0 < r0
    ensures (forall r1: nat | 0 < r1 :: Quote(r0, r1, a) + Quote(r0, r1, b) <= r1)
       <==> (997 * a) * (997 * b) <= (1000 * r0) * (1000 * r0)
  {
    RunWithinReserve(r0, [a, b]);
    assert [a, b][..1] == [a] && [a][..0] == [];
    assert Paid(r0, 1, [a]) == Paid(r0, 1, []) + Quote(r0, 1, a);
    forall r1: nat | 0 < r1 ensures Paid(r0, r1, [a, b]) == Quote(r0, r1, a) + Quote(r0, r1, b) {
      assert Paid(r0, r1, [a]) == Quote(r0, r1, a);
    }
    assert Shares(r0, [a]) == Share(r0, a);
    TwoShares((1000 * r0) as real, (997 * a) as real, (997 * b) as real);
  }

  lemma TwoShares(r: real, a: real, b: real)
    requires 0.0 < r && 0.0 <= a && 0.0 <= b
    ensures a / (r + a) + b / (r + b) <= 1.0 <==> a * b <= r * r
  {
    var x, y := a / (r + a), b / (r + b);
    var d := (r + a) * (r + b);
    assert x * (r + a) == a && y * (r + b) == b;
    assert 0.0 < d;
    Regroup(x, r + a, r + b);
    Regroup(y, r + b, r + a);
    DistributeReal(x, y, d);
    assert (x + y) * d == a * (r + b) + b * (r + a);
    assert d - (a * (r + b) + b * (r + a)) == r * r - a * b;
    ScaleReal(x + y, d);
  }

  // A trade of thrice the input reserve is worth three quarters of the output reserve: two of them
  // are paid more than there is.
  lemma TwoTradesExceedReserve()
    ensures Paid(1_000_000, 1_000_000, [3_000_000, 3_000_000]) > 1_000_000
  {
    assert [3_000_000, 3_000_000][..1] == [3_000_000];
    assert Paid(1_000_000, 1_000_000, [3_000_000]) == Quote(1_000_000, 1_000_000, 3_000_000);
  }

  // ---------- The precompile as an object ----------

  class SwapRoute {
    var reserve0: nat
    var reserve1: nat
    var liquidity: int
    const token: SwayToken

    constructor (token: SwayToken)
      ensures this.token == token && reserve0 == 0 && reserve1 == 0 && liquidity == 0
    {
      this.token := token;
      reserve0, reserve1, liquidity := 0, 0, 0;
    }

    // A swap quotes, and mints the fee as SWAY to the trader while the liquidity share lasts.
    method Swap(caller: Address, amountIn: nat, amountOutMin: nat) returns (r: Option<int>)
      modifies token
      ensures var r0 := if reserve0 == 0 then 1_000_000 else reserve0;
              var r1 := if reserve1 == 0 then 1_000_000 else reserve1;
              r == if Quote(r0, r1, amountIn) < amountOutMin then None else Some(Quote(r0, r1, amountIn))
      ensures token.Current() == if r.None? then old(token.Current()) else
                                   Sway.Result(old(token.Current()), SwapReward(caller, amountIn)).0
    {
      var r0, r1: nat := reserve0, reserve1;
      if r0 == 0 {
        r0 := 1_000_000;
      }
      if r1 == 0 {
        r1 := 1_000_000;
      }
      var amountInWithFee := amountIn * 997;
      var denominator := r0 * 1000 + amountInWithFee;
      var amountOut := amountInWithFee * r1 / denominator;
      if amountOut < amountOutMin {
        return None;
      }
      var fee := amountIn * 3 / 1000;
      var _ := token.SwayMintInternal(caller, fee, DEX_LP);
      return Some(amountOut);
    }

    // Adding liquidity counts both amounts into one total and pays a hundred SWAY.
    method AddLiquidity(caller: Address, amount0: nat, amount1: nat) returns (added: nat)
      modifies this`liquidity, token
      ensures added == amount0 + amount1 && liquidity == old(liquidity) + added
      ensures token.Current() == Sway.Result(old(token.Current()), LiquidityReward(caller)).0
    {
      added := amount0 + amount1;
      liquidity := liquidity + added;
      var _ := token.SwayMintInternal(caller, 100, DEX_LP);
    }
  }
}
