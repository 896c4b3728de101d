/** Shares of the traffic, one for every path: their total, moving share between paths,
    and the first shares. */
module Shares {
  import opened Ordered

  type Shares = map<nat, real>

  // ---- sums and signs ----

  ghost function Total(m: Shares): real
    decreases |m|
  {
    if m == map[] then 0.0
    else
      var k := Least(m.Keys);
      assert |(m - {k}).Keys| < |m.Keys|;
      m[k] + Total(m - {k})
  }

  lemma {:induction false} TotalRemove(m: Shares, k: nat)
    requires k in m
    ensures Total(m) == m[k] + Total(m - {k})
    decreases |m|
  {
    var l := Least(m.Keys);
    if l != k {
      var rest := m - {l};
      assert |rest.Keys| < |m.Keys|;
      TotalRemove(rest, k);
      var both := m - {k};
      assert l in both.Keys && forall x :: x in both.Keys ==> x in m.Keys;
      assert Least(both.Keys) == l;
      assert both - {l} == rest - {k};
      assert both != map[];
    }
  }

  lemma TotalUpdate(m: Shares, k: nat, v: real)
    requires k in m
    ensures Total(m[k := v]) == Total(m) - m[k] + v
  {
    TotalRemove(m, k);
    TotalRemove(m[k := v], k);
    assert m[k := v] - {k} == m - {k};
  }

  ghost predicate NonNegative(m: Shares) {
    forall k :: k in m ==> m[k] >= 0.0
  }

  /** Share moved from one path to another, in the order of the two writes. */
  function Shifted(psi: Shares, best: nat, worst: nat, delta: real): Shares
    requires best in psi && worst in psi
  {
    psi[best := psi[best] + delta][worst := psi[worst] - delta]
  }

  lemma ShiftedSelf(psi: Shares, path: nat, delta: real)
    requires path in psi
    ensures Shifted(psi, path, path, delta) == psi[path := psi[path] - delta]
  {
  }

  lemma ShiftOnSelf(psi: Shares, path: nat, delta: real)
    requires path in psi
    ensures Total(Shifted(psi, path, path, delta)) == Total(psi) - delta
  {
    ShiftedSelf(psi, path, delta);
    TotalUpdate(psi, path, psi[path] - delta);
  }

  lemma TotalSet(m: Shares, after: Shares, k: nat, v: real)
    requires k in m && after == m[k := v]
    ensures Total(after) == Total(m) - m[k] + v
  {
    TotalUpdate(m, k, v);
  }

  lemma SumOfTwo(psi: Shares, more: Shares, after: Shares, best: nat, worst: nat, delta: real)
    requires best in psi && worst in psi && worst in more && more[worst] == psi[worst]
    requires more == psi[best := psi[best] + delta] && after == more[worst := psi[worst] - delta]
    ensures Total(after) == Total(psi)
  {
    TotalSet(psi, more, best, psi[best] + delta);
    TotalSet(more, after, worst, psi[worst] - delta);
  }

  lemma ShiftBetween(psi: Shares, best: nat, worst: nat, delta: real)
    requires best in psi && worst in psi && best != worst
    ensures Total(Shifted(psi, best, worst, delta)) == Total(psi)
  {
    SumOfTwo(psi, psi[best := psi[best] + delta], Shifted(psi, best, worst, delta), best, worst, delta);
  }

  /** Moving share between two different paths keeps the total; on one and the same path it
      takes the amount away, so only a zero shift keeps the total there. */
  lemma ShiftKeepsTotalIff(psi: Shares, best: nat, worst: nat, delta: real)
    requires best in psi && worst in psi
    ensures Shifted(psi, best, worst, delta).Keys == psi.Keys
    ensures Total(Shifted(psi, best, worst, delta)) == Total(psi) <==> best != worst || delta == 0.0
  {
    if best == worst {
      ShiftOnSelf(psi, best, delta);
    } else {
      ShiftBetween(psi, best, worst, delta);
    }
  }

  // ---- the first shares ----

  /** The paths with a rate, in proportion to it. */
  function Initial(rates: map<nat, nat>, total: nat): Shares
    requires total > 0
  {
    map p | p in rates && rates[p] > 0 :: rates[p] as real / total as real
  }

  lemma {:induction false} ProportionsSum(rates: map<nat, nat>, total: nat, keys: set<nat>)
    requires total > 0 && keys == rates.Keys
    ensures Total(Initial(rates, total)) == Ordered.Sum(rates) as real / total as real
    decreases keys
  {
    if keys == {} {
      assert Initial(rates, total) == map[] && rates == map[];
    } else {
      var k := Least(keys);
      var rest := rates - {k};
      ProportionsSum(rest, total, keys - {k});
      Ordered.SumRemove(rates, k);
      AddFractions(rates[k], Ordered.Sum(rest), total);
      if rates[k] > 0 {
        TotalRemove(Initial(rates, total), k);
        assert Initial(rates, total) - {k} == Initial(rest, total);
      } else {
        assert Initial(rates, total) == Initial(rest, total);
      }
    }
  }

  lemma AddFractions(x: int, y: int, t: nat)
    requires t > 0
    ensures x as real / t as real + y as real / t as real == (x + y) as real / t as real
  {
  }

  lemma Fraction(x: nat, t: nat)
    requires t > 0
    ensures x as real / t as real >= 0.0 && t as real / t as real == 1.0
  {
  }

  /** The first shares are a distribution. */
  lemma InitialIsDistribution(rates: map<nat, nat>)
    requires Ordered.Sum(rates) > 0
    ensures NonNegative(Initial(rates, Ordered.Sum(rates)))
    ensures Total(Initial(rates, Ordered.Sum(rates))) == 1.0
  {
    var total := Ordered.Sum(rates);
    ProportionsSum(rates, total, rates.Keys);
    forall p | p in Initial(rates, total) ensures Initial(rates, total)[p] >= 0.0 {
      Fraction(rates[p], total);
    }
    Fraction(total, total);
  }
}
