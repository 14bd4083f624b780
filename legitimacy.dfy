/** False-positive filtering: `identify_legitimate_accounts` recognises
    merchants (many incoming payments of steady size, few outgoing) and
    payroll accounts (many outgoing payments of steady size, few
    incoming). "Steady" means a coefficient of variation, standard
    deviation over mean, below a bound. */
module Legitimacy {

  import opened TxGraph

  const MerchantMinIn: nat := 20
  const MerchantMaxOut: nat := 3
  /** The merchant bound on the coefficient of variation, 0.5. */
  const MerchantMaxCv: real := 0.5
  const PayrollMinOut: nat := 20
  const PayrollMaxIn: nat := 3
  /** The payroll bound on the coefficient of variation, 0.3. */
  const PayrollMaxCv: real := 0.3

  /** `[t["amount"] for t in edges]` */
  function Amounts(edges: seq<Edge>): (r: seq<real>)
    ensures |r| == |edges|
  {
    seq(|edges|, i requires 0 <= i < |edges| => edges[i].amount)
  }

  function Sum(xs: seq<real>): real
  {
    if xs == [] then 0.0 else Sum(xs[..|xs| - 1]) + xs[|xs| - 1]
  }

  function Mean(xs: seq<real>): real
    requires |xs| > 0
  {
    Sum(xs) / |xs| as real
  }

  /** `sum((a - avg) ** 2 for a in amounts)` */
  function SquaredDeviations(xs: seq<real>, avg: real): real
  {
    if xs == [] then 0.0
    else SquaredDeviations(xs[..|xs| - 1], avg) + (xs[|xs| - 1] - avg) * (xs[|xs| - 1] - avg)
  }

  /** The population variance. */
  function Variance(xs: seq<real>): real
    requires |xs| > 0
  {
    SquaredDeviations(xs, Mean(xs)) / |xs| as real
  }

  /** The test `amounts and avg > 0 and sqrt(var) / avg < maxCv`. With a
      positive mean and a non-negative bound that is `var < (maxCv * avg)^2`,
      which needs no square root. */
  function Square(x: real): real
  {
    x * x
  }

  predicate Steady(xs: seq<real>, maxCv: real)
  {
    |xs| > 0 && Mean(xs) > 0.0 && Variance(xs) < Square(maxCv * Mean(xs))
  }

  predicate Merchant(g: Graph, a: string)
    requires a in g.stats
  {
    g.stats[a].inDeg >= MerchantMinIn && g.stats[a].outDeg <= MerchantMaxOut
    && Steady(Amounts(InEdges(g, a)), MerchantMaxCv)
  }

  predicate Payroll(g: Graph, a: string)
    requires a in g.stats
  {
    g.stats[a].outDeg >= PayrollMinOut && g.stats[a].inDeg <= PayrollMaxIn
    && Steady(Amounts(OutEdges(g, a)), PayrollMaxCv)
  }

  /** `identify_legitimate_accounts(node_stats, adjacency, reverse_adj)`:
      every account of `node_stats` that passes the merchant test or the
      payroll test. */
  method IdentifyLegitimateAccounts(g: Graph) returns (legitimate: set<string>)
    requires forall a :: a in g.order ==> a in g.stats
    ensures forall a :: a in legitimate <==> a in g.order && (Merchant(g, a) || Payroll(g, a))
  {
    legitimate := {};
    for i := 0 to |g.order|
      invariant forall a :: a in legitimate <==> a in g.order[..i] && (Merchant(g, a) || Payroll(g, a))
    {
      var accountId := g.order[i];
      assert g.order[..i + 1] == g.order[..i] + [accountId];
      var stats := g.stats[accountId];
      if stats.inDeg >= MerchantMinIn && stats.outDeg <= MerchantMaxOut {
        var steady := SteadyAmounts(Amounts(InEdges(g, accountId)), MerchantMaxCv);
        if steady {
          legitimate := legitimate + {accountId};
        }
      }
      if stats.outDeg >= PayrollMinOut && stats.inDeg <= PayrollMaxIn {
        var steady := SteadyAmounts(Amounts(OutEdges(g, accountId)), PayrollMaxCv);
        if steady {
          legitimate := legitimate + {accountId};
        }
      }
    }
    assert g.order[..|g.order|] == g.order;
  }

  /** The body shared by both tests: the mean, then the variance, then the
      coefficient of variation against its bound. */
  method SteadyAmounts(amounts: seq<real>, maxCv: real) returns (steady: bool)
    ensures steady == Steady(amounts, maxCv)
  {
    steady := false;
    if |amounts| > 0 {
      var avg := Sum(amounts) / |amounts| as real;
      if avg > 0.0 {
        var variance := SquaredDeviations(amounts, avg) / |amounts| as real;
        steady := variance < Square(maxCv * avg);
      }
    }
  }

  // ---------------------------------------------------------------------
  // Properties

  lemma {:induction false} SquaredDeviationsNonNegative(xs: seq<real>, avg: real)
    ensures SquaredDeviations(xs, avg) >= 0.0
  {
    if xs != [] {
      SquaredDeviationsNonNegative(xs[..|xs| - 1], avg);
      var d := xs[|xs| - 1] - avg;
      assert d * d >= 0.0;
    }
  }

  /** Identical amounts deviate not at all from their own value. */
  lemma {:induction false} ConstantSums(xs: seq<real>, c: real)
    requires forall i :: 0 <= i < |xs| ==> xs[i] == c
    ensures Sum(xs) == |xs| as real * c
    ensures SquaredDeviations(xs, c) == 0.0
  {
    if xs != [] {
      var init := xs[..|xs| - 1];
      ConstantSums(init, c);
      assert Sum(xs) == (|init| as real) * c + c;
    }
  }

  /** A run of payments of one and the same positive amount is steady
      under any positive bound: its variance is zero. */
  lemma ConstantIsSteady(xs: seq<real>, c: real, maxCv: real)
    requires |xs| > 0 && c > 0.0 && maxCv > 0.0
    requires forall i :: 0 <= i < |xs| ==> xs[i] == c
    ensures Mean(xs) == c && Variance(xs) == 0.0
    ensures Steady(xs, maxCv)
  {
    ConstantSums(xs, c);
    var n := |xs| as real;
    assert Sum(xs) / n == c;
    assert Mean(xs) == c;
    assert Variance(xs) == 0.0 / n == 0.0;
    Positive(maxCv, c);
    SquarePositive(maxCv * c);
  }

  lemma Positive(x: real, y: real)
    requires x > 0.0 && y > 0.0
    ensures x * y > 0.0
  {
  }

  lemma SquarePositive(x: real)
    requires x > 0.0
    ensures Square(x) > 0.0
  {
    calc {
      Square(x);
      x * x;
    > { Positive(x, x); }
      0.0;
    }
  }

  /** The variance is never negative, so a steady set of payments has a
      coefficient of variation in `[0, maxCv)`. */
  lemma VarianceNonNegative(xs: seq<real>)
    requires |xs| > 0
    ensures Variance(xs) >= 0.0
  {
    SquaredDeviationsNonNegative(xs, Mean(xs));
  }

  /** A merchant receiving twenty or more payments of one amount, and
      sending three or fewer, is legitimate. */
  lemma UniformMerchant(g: Graph, a: string, c: real)
    requires WellFormed(g) && a in g.stats && c > 0.0
    requires g.stats[a].inDeg >= MerchantMinIn && g.stats[a].outDeg <= MerchantMaxOut
    requires forall e :: e in InEdges(g, a) ==> e.amount == c
    ensures Merchant(g, a)
  {
    var xs := Amounts(InEdges(g, a));
    assert forall i :: 0 <= i < |xs| ==> xs[i] == c by {
      forall i | 0 <= i < |xs| ensures xs[i] == c {
        assert InEdges(g, a)[i] in InEdges(g, a);
      }
    }
    ConstantIsSteady(xs, c, MerchantMaxCv);
  }

  /** The same for a payroll account paying twenty or more salaries of one
      amount. */
  lemma UniformPayroll(g: Graph, a: string, c: real)
    requires WellFormed(g) && a in g.stats && c > 0.0
    requires g.stats[a].outDeg >= PayrollMinOut && g.stats[a].inDeg <= PayrollMaxIn
    requires forall e :: e in OutEdges(g, a) ==> e.amount == c
    ensures Payroll(g, a)
  {
    var xs := Amounts(OutEdges(g, a));
    assert forall i :: 0 <= i < |xs| ==> xs[i] == c by {
      forall i | 0 <= i < |xs| ensures xs[i] == c {
        assert OutEdges(g, a)[i] in OutEdges(g, a);
      }
    }
    ConstantIsSteady(xs, c, PayrollMaxCv);
  }

}
