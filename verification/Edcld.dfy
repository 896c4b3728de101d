/** Delay-controlled load distribution: the update that moves share of the traffic from the
    costliest path to the cheapest. */
module Edcld {
  import opened Arithmetic
  import opened Balance
  import opened Ordered
  import opened Shares

  function Smoothed(s: real, rate: real, t: nat): real {
    if t == 0 then s else if s == 0.0 then rate else 0.15 * s + 0.85 * rate
  }

  /** The first rate is taken as it is; after that the smoothed rate goes 17 parts in 20 of the way to each new one. */
  lemma SmoothedIsMean(s: real, rate: real, t: nat)
    ensures t == 0 ==> Smoothed(s, rate, t) == s
    ensures t > 0 && s == 0.0 ==> Smoothed(s, rate, t) == rate
    ensures t > 0 && s != 0.0 ==> 20.0 * (Smoothed(s, rate, t) - s) == 17.0 * (rate - s)
  {
  }

  /** The smoothed rate after n paths have been gone through. */
  function LoadAt(s: real, rate: real, t: nat, n: nat): real {
    if n == 0 then s else Smoothed(LoadAt(s, rate, t, n - 1), rate, t)
  }

  /** The divisors that the i-th path of an update meets are not zero. */
  predicate Divides(links: map<nat, Link>, psi: Shares, keys: seq<nat>, s: real, rate: real, t: nat, i: nat)
    requires i < |keys|
  {
    && keys[i] in links && keys[i] in psi && links[keys[i]].rate > 0
    && Slack(links[keys[i]], psi[keys[i]], LoadAt(s, rate, t, i + 1)) != 0.0
  }

  ghost predicate AllDivide(links: map<nat, Link>, psi: Shares, keys: seq<nat>, s: real, rate: real, t: nat) {
    forall i :: 0 <= i < |keys| ==> Divides(links, psi, keys, s, rate, t, i)
  }

  /** The traffic offered since the last update, in bit/s. */
  function Offered(len: nat, t: nat): real {
    if t == 0 then 0.0 else (len * 8000) as real / t as real
  }

  /** t is the time from `last` to `now` in 32 bits. */
  ghost predicate Elapsed(t: nat, last: nat, now: nat) {
    t < TWO32 && (now - last - t) % TWO32 == 0
  }

  /** At the rate offered, the bytes come in the time. */
  lemma OfferedBrings(len: nat, t: nat)
    ensures Offered(len, t) * t as real == if t == 0 then 0.0 else 8000.0 * len as real
  {
  }

  function Rates(links: map<nat, Link>): map<nat, nat> {
    map p | p in links :: links[p].rate
  }

  /** The sum of the rates that are not zero. */
  method TotalRate(links: map<nat, Link>) returns (total: nat)
    ensures total == Ordered.Sum(Rates(links))
  {
    var keys := Keys(links.Keys);
    assert Rates(links).Keys == links.Keys;
    PartAll(Rates(links), keys);
    total := AddRates(links, keys);
  }

  method AddRates(links: map<nat, Link>, keys: seq<nat>) returns (total: nat)
    requires Increasing(keys) && AllIn(keys, Rates(links))
    ensures total == Ordered.Sum(Part(Rates(links), keys, |keys|))
  {
    ghost var rates := Rates(links);
    total := 0;
    var i := 0;
    while i < |keys|
      invariant i <= |keys| && total == Ordered.Sum(Part(rates, keys, i))
    {
      PartNext(rates, keys, i);
      assert keys[i] in rates;
      if links[keys[i]].rate != 0 {
        total := total + links[keys[i]].rate;
      }
      i := i + 1;
    }
  }

  /** What an update reads besides the tables. */
  datatype Reading = Reading(links: map<nat, Link>, t: nat, rate: real, averageLen: nat, w: real)

  /** The average packet, in bits. */
  function Bits(r: Reading): real {
    r.averageLen as real * 8.0
  }

  /** The slack of the first n paths, with the rate smoothed once more before each. */
  function Slacks(r: Reading, psi: Shares, keys: seq<nat>, s: real, n: nat): Shares
    requires n <= |keys| && forall i :: 0 <= i < n ==> Divides(r.links, psi, keys, s, r.rate, r.t, i)
  {
    if n == 0 then map[]
    else
      assert Divides(r.links, psi, keys, s, r.rate, r.t, n - 1);
      var p := keys[n - 1];
      Slacks(r, psi, keys, s, n - 1)[p := Slack(r.links[p], psi[p], LoadAt(s, r.rate, r.t, n))]
  }

  /** The cost table once the first n paths are priced. */
  function Costs(r: Reading, psi: Shares, cost: Shares, keys: seq<nat>, s: real, n: nat): Shares
    requires n <= |keys| && forall i :: 0 <= i < n ==> Divides(r.links, psi, keys, s, r.rate, r.t, i)
  {
    if n == 0 then cost
    else
      assert Divides(r.links, psi, keys, s, r.rate, r.t, n - 1);
      var p := keys[n - 1];
      Costs(r, psi, cost, keys, s, n - 1)
        [p := CostOf(r.links[p], Slack(r.links[p], psi[p], LoadAt(s, r.rate, r.t, n)), r.t, Bits(r), r.w)]
  }

  /** Every path is priced with its own slack. */
  lemma {:induction false} PricedAt(r: Reading, psi: Shares, cost: Shares, keys: seq<nat>, s: real, n: nat, i: nat)
    requires i < n <= |keys| && Increasing(keys)
    requires forall i :: 0 <= i < n ==> Divides(r.links, psi, keys, s, r.rate, r.t, i)
    ensures var p := keys[i];
            && p in Slacks(r, psi, keys, s, n) && p in Costs(r, psi, cost, keys, s, n)
            && p in r.links && p in psi && r.links[p].rate > 0
            && Slacks(r, psi, keys, s, n)[p] == Slack(r.links[p], psi[p], LoadAt(s, r.rate, r.t, i + 1)) != 0.0
            && Costs(r, psi, cost, keys, s, n)[p]
               == CostOf(r.links[p], Slacks(r, psi, keys, s, n)[p], r.t, Bits(r), r.w)
    decreases n
  {
    assert Divides(r.links, psi, keys, s, r.rate, r.t, i);
    if i < n - 1 {
      assert keys[i] < keys[n - 1];
      PricedAt(r, psi, cost, keys, s, n - 1, i);
    }
  }

  lemma {:induction false} PricedKeys(r: Reading, psi: Shares, cost: Shares, keys: seq<nat>, s: real, n: nat)
    requires n <= |keys|
    requires forall i :: 0 <= i < n ==> Divides(r.links, psi, keys, s, r.rate, r.t, i)
    requires forall i :: 0 <= i < n ==> keys[i] in cost
    ensures Costs(r, psi, cost, keys, s, n).Keys == cost.Keys
  {
    if n > 0 {
      PricedKeys(r, psi, cost, keys, s, n - 1);
      assert keys[n - 1] in cost;
    }
  }

  /** One path of least and one of greatest cost. */
  ghost predicate AreExtremes(cost: Shares, best: nat, worst: nat) {
    best in cost && worst in cost && forall p :: p in cost ==> cost[best] <= cost[p] <= cost[worst]
  }

  predicate Paired(r: Reading, best: nat, worst: nat, slack: Shares) {
    && best in r.links && worst in r.links && best in slack && worst in slack
    && r.links[best].rate > 0 && r.links[worst].rate > 0
    && (1.0 - r.w) * Bits(r) != 0.0
  }

  function Equation(r: Reading, best: nat, worst: nat, slack: Shares, load: real): Quadratic
    requires Paired(r, best, worst, slack)
  {
    Solved(Lag(r.links[best], r.links[worst], r.w, Bits(r)), load, slack[best], slack[worst])
  }

  /** No divisor of the update is zero, whichever paths come out as the extremes. */
  ghost predicate Defined(r: Reading, psi: Shares, cost: Shares, s: real) {
    var keys := Keys(cost.Keys);
    && AllDivide(r.links, psi, keys, s, r.rate, r.t)
    && (1.0 - r.w) * Bits(r) != 0.0
    && forall best, worst :: RootedFor(r, psi, cost, keys, s, best, worst)
  }

  ghost predicate RootedFor(r: Reading, psi: Shares, cost: Shares, keys: seq<nat>, s: real, best: nat, worst: nat)
    requires AllDivide(r.links, psi, keys, s, r.rate, r.t)
  {
    var slack := Slacks(r, psi, keys, s, |keys|);
    AreExtremes(Costs(r, psi, cost, keys, s, |keys|), best, worst) && Paired(r, best, worst, slack) ==>
      Rooted(Equation(r, best, worst, slack, LoadAt(s, r.rate, r.t, |keys|)))
  }

  lemma ExtremesPaired(r: Reading, psi: Shares, cost: Shares, keys: seq<nat>, s: real, best: nat, worst: nat)
    requires AllDivide(r.links, psi, keys, s, r.rate, r.t) && (1.0 - r.w) * Bits(r) != 0.0
    requires InOrder(keys, cost.Keys) && best in cost && worst in cost
    ensures Paired(r, best, worst, Slacks(r, psi, keys, s, |keys|))
  {
    assert best in keys && worst in keys by {
      assert best in cost.Keys && worst in cost.Keys;
    }
    var i :| 0 <= i < |keys| && keys[i] == best;
    var j :| 0 <= j < |keys| && keys[j] == worst;
    PricedAt(r, psi, cost, keys, s, |keys|, i);
    PricedAt(r, psi, cost, keys, s, |keys|, j);
  }

  lemma ExtremesRooted(r: Reading, psi: Shares, cost: Shares, keys: seq<nat>, s: real, best: nat, worst: nat)
    requires keys == Keys(cost.Keys) && Defined(r, psi, cost, s) && best in cost && worst in cost
    requires AreExtremes(Costs(r, psi, cost, keys, s, |keys|), best, worst)
    ensures var slack := Slacks(r, psi, keys, s, |keys|);
            && Paired(r, best, worst, slack)
            && Rooted(Equation(r, best, worst, slack, LoadAt(s, r.rate, r.t, |keys|)))
  {
    ExtremesPaired(r, psi, cost, keys, s, best, worst);
    assert RootedFor(r, psi, cost, keys, s, best, worst);
  }

  /** The tables that pricing all paths leads to, path after path. */
  ghost predicate IsPriced(r: Reading, psi: Shares, cost: Shares, s: real, cost': Shares, slack: Shares, load: real) {
    var keys := Keys(cost.Keys);
    && AllDivide(r.links, psi, keys, s, r.rate, r.t)
    && cost' == Costs(r, psi, cost, keys, s, |keys|)
    && slack == Slacks(r, psi, keys, s, |keys|)
    && load == LoadAt(s, r.rate, r.t, |keys|)
  }

  lemma CostsKeepKeys(r: Reading, psi: Shares, cost: Shares, s: real)
    requires Defined(r, psi, cost, s)
    ensures var keys := Keys(cost.Keys); Costs(r, psi, cost, keys, s, |keys|).Keys == cost.Keys
  {
    var keys := Keys(cost.Keys);
    forall i | 0 <= i < |keys| ensures keys[i] in cost {
      assert keys[i] in keys;
    }
    PricedKeys(r, psi, cost, keys, s, |keys|);
  }

  lemma PlaceOf(keys: seq<nat>, cost: Shares, p: nat) returns (i: nat)
    requires InOrder(keys, cost.Keys) && p in cost
    ensures i < |keys| && keys[i] == p
  {
    assert p in cost.Keys;
    i :| 0 <= i < |keys| && keys[i] == p;
  }

  /** What an update makes a path cost. */
  lemma UpdatePrices(r: Reading, psi: Shares, cost: Shares, s: real, cost': Shares, slack: Shares, load: real, p: nat,
                     wait: real, drain: real)
    requires IsPriced(r, psi, cost, s, cost', slack, load) && p in cost
    ensures p in cost' && p in slack && slack[p] != 0.0 && p in r.links && r.links[p].rate > 0
    ensures Waits(wait, slack[p], r.t, 8.0 * r.averageLen as real, r.w)
            && drain * r.links[p].rate as real == 8000.0 * r.links[p].pending as real ==>
              cost'[p] == (r.links[p].minRtt / 2) as real + wait + r.w * drain
  {
    var keys := Keys(cost.Keys);
    var i := PlaceOf(keys, cost, p);
    PricedAt(r, psi, cost, keys, s, |keys|, i);
    if Waits(wait, slack[p], r.t, 8.0 * r.averageLen as real, r.w)
       && drain * r.links[p].rate as real == 8000.0 * r.links[p].pending as real {
      CostIsDelay(r.links[p], slack[p], r.t, Bits(r), r.w, wait, drain);
    }
  }

  /** Of two paths with the same slack an update finds the one dearer that is later: by half its minimum round trip and,
      weighted, by the time in which it sends its pending bytes. */
  lemma LaterIsDearer(r: Reading, psi: Shares, cost: Shares, s: real, cost': Shares, slack: Shares, load: real,
                      p: nat, q: nat, drainP: real, drainQ: real)
    requires IsPriced(r, psi, cost, s, cost', slack, load) && p in cost && q in cost
    requires p in slack && q in slack && slack[p] == slack[q] && p in r.links && q in r.links
    requires drainP * r.links[p].rate as real == 8000.0 * r.links[p].pending as real
    requires drainQ * r.links[q].rate as real == 8000.0 * r.links[q].pending as real
    ensures p in cost' && q in cost'
    ensures cost'[p] > cost'[q] <==>
              (r.links[p].minRtt / 2) as real + r.w * drainP > (r.links[q].minRtt / 2) as real + r.w * drainQ
  {
    UpdatePrices(r, psi, cost, s, cost', slack, load, p, 0.0, drainP);
    var wait := (1.0 - r.w) * (8.0 * r.averageLen as real) * r.t as real / slack[p];
    UpdatePrices(r, psi, cost, s, cost', slack, load, p, wait, drainP);
    UpdatePrices(r, psi, cost, s, cost', slack, load, q, wait, drainQ);
  }

  /** With just these two paths it takes share from the later one and gives it to the other. */
  lemma LaterGives(r: Reading, psi: Shares, cost: Shares, s: real, cost': Shares, slack: Shares, load: real,
                   p: nat, q: nat, drainP: real, drainQ: real, best: nat, worst: nat)
    requires IsPriced(r, psi, cost, s, cost', slack, load) && p in cost && q in cost
    requires p in slack && q in slack && slack[p] == slack[q] && p in r.links && q in r.links
    requires drainP * r.links[p].rate as real == 8000.0 * r.links[p].pending as real
    requires drainQ * r.links[q].rate as real == 8000.0 * r.links[q].pending as real
    requires (r.links[p].minRtt / 2) as real + r.w * drainP > (r.links[q].minRtt / 2) as real + r.w * drainQ
    requires AreExtremes(cost', best, worst)
    ensures best != p && worst != q
    ensures cost'.Keys == {p, q} ==> best == q && worst == p
  {
    LaterIsDearer(r, psi, cost, s, cost', slack, load, p, q, drainP, drainQ);
    assert best in cost'.Keys && worst in cost'.Keys;
  }

  lemma MoveKeeps(psi: Shares, best: nat, worst: nat, delta: real)
    requires NonNegative(psi) && best in psi && worst in psi
    requires 0.0 <= delta <= psi[worst] && (best == worst ==> delta == 0.0)
    ensures NonNegative(Shifted(psi, best, worst, delta))
    ensures Shifted(psi, best, worst, delta).Keys == psi.Keys
    ensures Total(Shifted(psi, best, worst, delta)) == Total(psi)
  {
    ShiftKeepsTotalIff(psi, best, worst, delta);
  }

  // ---- an update that does not level the costs ----

  /** Two paths alike in delay and rate, of which one carries three quarters of the traffic:
      packets of 1000 bytes, one of them a second, and no pending bytes. */
  ghost predicate Twins(r: Reading, psi: Shares, cost: Shares, p: nat, q: nat) {
    && p < q && r.links == map[p := Link(100, 10_000, 0), q := Link(100, 10_000, 0)]
    && r.t == 1000 && r.rate == 8000.0 && r.averageLen == 1000 && r.w == 0.2
    && psi == map[p := 0.25, q := 0.75] && cost.Keys == {p, q}
  }

  lemma TwinKeys(cost: Shares, p: nat, q: nat)
    requires p < q && cost.Keys == {p, q}
    ensures Keys(cost.Keys) == [p, q]
  {
    var keys := Keys(cost.Keys);
    assert p in keys && q in keys && |keys| == 2;
  }

  lemma TwinLoads(r: Reading, n: nat)
    requires r.t == 1000 && r.rate == 8000.0 && 1 <= n <= 2
    ensures LoadAt(0.0, r.rate, r.t, n) == 8000.0
  {
    assert LoadAt(0.0, r.rate, r.t, n - 1) == if n == 1 then 0.0 else 8000.0;
  }

  /** No divisor is zero for them. */
  lemma TwinsDivide(r: Reading, psi: Shares, cost: Shares, p: nat, q: nat, keys: seq<nat>)
    requires Twins(r, psi, cost, p, q) && keys == [p, q]
    ensures AllDivide(r.links, psi, keys, 0.0, r.rate, r.t)
    ensures Slacks(r, psi, keys, 0.0, |keys|) == map[p := 8000.0, q := 4000.0]
  {
    TwinLoads(r, 1);
    TwinLoads(r, 2);
    assert Divides(r.links, psi, keys, 0.0, r.rate, r.t, 0);
    assert Divides(r.links, psi, keys, 0.0, r.rate, r.t, 1);
    assert Slacks(r, psi, keys, 0.0, 1) == map[p := 8000.0];
  }

  lemma TwinsLagNothing(r: Reading, psi: Shares, cost: Shares, p: nat, q: nat, best: nat, worst: nat, slack: Shares,
                        load: real)
    requires Twins(r, psi, cost, p, q) && Paired(r, best, worst, slack) && load == 8000.0
    ensures Equation(r, best, worst, slack, load) == Quadratic(0.0, 7998.0, slack[worst] - slack[best])
  {
    assert r.links[best] == r.links[worst];
    assert Lag(r.links[best], r.links[worst], r.w, Bits(r)) == 0.0;
  }

  lemma TwinsDefined(r: Reading, psi: Shares, cost: Shares, p: nat, q: nat)
    requires Twins(r, psi, cost, p, q)
    ensures Defined(r, psi, cost, 0.0)
  {
    var keys := Keys(cost.Keys);
    TwinKeys(cost, p, q);
    TwinsDivide(r, psi, cost, p, q, keys);
    TwinLoads(r, |keys|);
    forall best, worst ensures RootedFor(r, psi, cost, keys, 0.0, best, worst) {
      if Paired(r, best, worst, Slacks(r, psi, keys, 0.0, |keys|)) {
        TwinsLagNothing(r, psi, cost, p, q, best, worst, Slacks(r, psi, keys, 0.0, |keys|), 8000.0);
      }
    }
  }

  /** A quarter of the traffic would level the costs of the twins. The update moves twice that and
      a little more, so that the path which was cheaper is now the dearer one. */
  lemma TwinsTradePlaces(r: Reading, psi: Shares, cost: Shares, p: nat, q: nat, cost': Shares, slack: Shares,
                         load: real, sqrt: real -> real)
    requires Twins(r, psi, cost, p, q) && IsPriced(r, psi, cost, 0.0, cost', slack, load)
    ensures slack == map[p := 8000.0, q := 4000.0] && load == 8000.0
    ensures cost' == map[p := 850.0, q := 1650.0]
    ensures Paired(r, p, q, slack) && Rooted(Equation(r, p, q, slack, load))
    ensures Levels(r.links[p], r.links[q], r.w, Bits(r), r.t, load, slack[p], slack[q], 0.25)
    ensures var x := Amount(Equation(r, p, q, slack, load), psi[q], sqrt);
            && 0.5 < x < 0.51
            && slack[p] - x * load > 0.0
            && CostOf(r.links[p], slack[p] - x * load, r.t, Bits(r), r.w)
               > CostOf(r.links[q], slack[q] + x * load, r.t, Bits(r), r.w)
  {
    var keys := Keys(cost.Keys);
    TwinKeys(cost, p, q);
    TwinsDivide(r, psi, cost, p, q, keys);
    TwinLoads(r, |keys|);
    TwinCosts(r, psi, cost, p, q, keys);
    TwinsLagNothing(r, psi, cost, p, q, p, q, slack, load);
    var x := Amount(Equation(r, p, q, slack, load), psi[q], sqrt);
    assert x == 4000.0 / 7998.0;
    TwinCost(r.links[p], slack[p] - x * load, r);
    TwinCost(r.links[q], slack[q] + x * load, r);
    SmallerInverse(slack[p] - x * load, slack[q] + x * load);
  }

  lemma TwinCost(link: Link, s: real, r: Reading)
    requires link == Link(100, 10_000, 0) && r.t == 1000 && r.averageLen == 1000 && r.w == 0.2 && s > 0.0
    ensures CostOf(link, s, r.t, Bits(r), r.w) == 50.0 + 6_400_000.0 * (1.0 / s)
  {
    assert Fixed(link, r.w) == 50.0;
  }

  lemma TwinCosts(r: Reading, psi: Shares, cost: Shares, p: nat, q: nat, keys: seq<nat>)
    requires Twins(r, psi, cost, p, q) && keys == [p, q] && AllDivide(r.links, psi, keys, 0.0, r.rate, r.t)
    ensures Costs(r, psi, cost, keys, 0.0, |keys|) == map[p := 850.0, q := 1650.0]
  {
    TwinLoads(r, 1);
    TwinLoads(r, 2);
    assert Divides(r.links, psi, keys, 0.0, r.rate, r.t, 0);
    assert Divides(r.links, psi, keys, 0.0, r.rate, r.t, 1);
    TwinCost(r.links[p], 8000.0, r);
    TwinCost(r.links[q], 4000.0, r);
    assert Costs(r, psi, cost, keys, 0.0, 1) == cost[p := 850.0];
  }

  class EdcldSchedule {
    const w: real
    var lastTs: nat
    var costTable: Shares
    var psiTable: Shares
    var averagePacketLen: nat
    var packetCounter: nat
    var smoothRate: real

    ghost predicate Valid()
      reads this
    {
      costTable.Keys == psiTable.Keys && NonNegative(psiTable)
    }

    constructor (weight: real)
      ensures Valid() && w == weight && psiTable == map[] && lastTs == 0 && smoothRate == 0.0
      ensures averagePacketLen == 0 && packetCounter == 0
    {
      w, lastTs, costTable, psiTable, averagePacketLen, packetCounter, smoothRate := weight, 0, map[], map[], 0, 0, 0.0;
    }

    /** The running mean of the packet length, in whole bytes. */
    method CountPackets(n: nat, size: nat)
      modifies this`averagePacketLen, this`packetCounter
      ensures packetCounter == old(packetCounter) + if size > 0 then n else 0
      ensures n > 0 && size > 0 ==>
                averagePacketLen * packetCounter <= old(averagePacketLen * packetCounter) + size
                                                  < (averagePacketLen + 1) * packetCounter
      ensures n == 0 || size == 0 ==> averagePacketLen == old(averagePacketLen)
    {
      if n > 0 && size > 0 {
        averagePacketLen := (averagePacketLen * packetCounter + size) / (packetCounter + n);
        packetCounter := packetCounter + n;
      }
    }

    /** The first frame: shares in proportion to the rates. */
    method Start(links: map<nat, Link>, now: nat)
      requires Valid() && psiTable == map[] && Ordered.Sum(Rates(links)) > 0
      modifies this`costTable, this`psiTable, this`lastTs
      ensures Valid() && lastTs == now && psiTable == Initial(Rates(links), Ordered.Sum(Rates(links)))
      ensures Total(psiTable) == 1.0
    {
      var total := TotalRate(links);
      InitialIsDistribution(Rates(links));
      psiTable := Initial(Rates(links), total);
      costTable := map p | p in psiTable :: links[p].minRtt as real;
      lastTs := now;
    }

    /** Prices every path, with the rate smoothed once more before each. */
    method UpdateCosts(keys: seq<nat>, links: map<nat, Link>, t: nat, len: nat) returns (slack: Shares)
      requires AllDivide(links, psiTable, keys, smoothRate, Offered(len, t), t)
      modifies this`costTable, this`smoothRate
      ensures smoothRate == LoadAt(old(smoothRate), Offered(len, t), t, |keys|)
      ensures var r := Reading(links, t, Offered(len, t), averagePacketLen, w);
              && slack == Slacks(r, psiTable, keys, old(smoothRate), |keys|)
              && costTable == Costs(r, psiTable, old(costTable), keys, old(smoothRate), |keys|)
    {
      ghost var r, s := Reading(links, t, Offered(len, t), averagePacketLen, w), smoothRate;
      slack := map[];
      var i := 0;
      while i < |keys|
        invariant i <= |keys| && Priced(r, old(costTable), keys, s, slack, i)
      {
        slack := PriceNext(keys, i, links, t, len, slack, r, old(costTable), s);
        i := i + 1;
      }
    }

    /** Where the tables are after n paths. */
    ghost predicate Priced(r: Reading, cost: Shares, keys: seq<nat>, s: real, slack: Shares, n: nat)
      requires n <= |keys| && AllDivide(r.links, psiTable, keys, s, r.rate, r.t)
      reads this
    {
      && smoothRate == LoadAt(s, r.rate, r.t, n)
      && slack == Slacks(r, psiTable, keys, s, n)
      && costTable == Costs(r, psiTable, cost, keys, s, n)
    }

    method PriceNext(keys: seq<nat>, i: nat, links: map<nat, Link>, t: nat, len: nat, slack0: Shares,
                     ghost r: Reading, ghost cost: Shares, ghost s: real)
        returns (slack: Shares)
      requires r == Reading(links, t, Offered(len, t), averagePacketLen, w) && i < |keys|
      requires AllDivide(links, psiTable, keys, s, r.rate, t)
      requires Priced(r, cost, keys, s, slack0, i)
      modifies this`costTable, this`smoothRate
      ensures Priced(r, cost, keys, s, slack, i + 1)
    {
      assert Divides(links, psiTable, keys, s, r.rate, t, i);
      Smooth(t, len);
      var p := keys[i];
      var left := Slack(links[p], psiTable[p], smoothRate);
      slack := slack0[p := left];
      costTable := costTable[p := CostOf(links[p], left, t, averagePacketLen as real * 8.0, w)];
    }

    method Smooth(t: nat, len: nat)
      modifies this`smoothRate
      ensures smoothRate == Smoothed(old(smoothRate), Offered(len, t), t)
    {
      if t != 0 {
        var rate := (len * 8000) as real / t as real;
        if smoothRate == 0.0 {
          smoothRate := rate;
        } else {
          smoothRate := 0.15 * smoothRate + 0.85 * rate;
        }
      }
    }

    /** The first path of least and the first of greatest cost; one and the same exactly when all cost the same. */
    method Extremes(keys: seq<nat>) returns (best: nat, worst: nat)
      requires keys != [] && InOrder(keys, costTable.Keys)
      ensures best in costTable && worst in costTable
      ensures forall p :: p in costTable ==> costTable[best] <= costTable[p] <= costTable[worst]
      ensures best == worst <==> forall p, q :: p in costTable && q in costTable ==> costTable[p] == costTable[q]
    {
      forall i | 0 <= i < |keys| ensures keys[i] in costTable {
        assert keys[i] in keys;
      }
      best, worst := keys[0], keys[0];
      var i := 1;
      while i < |keys|
        invariant 1 <= i <= |keys| && best in keys && worst in keys
        invariant forall j :: 0 <= j < i ==> costTable[best] <= costTable[keys[j]] <= costTable[worst]
        invariant costTable[best] == costTable[worst] ==> best == worst
      {
        if costTable[keys[i]] > costTable[worst] {
          worst := keys[i];
        }
        if costTable[keys[i]] < costTable[best] {
          best := keys[i];
        }
        i := i + 1;
      }
      forall p | p in costTable ensures costTable[best] <= costTable[p] <= costTable[worst] {
        assert p in costTable.Keys;
      }
    }

    /** Solves for the shift between two paths and bounds it. */
    method ChooseAmount(best: nat, worst: nat, slack: Shares, r: Reading, sqrt: real -> real) returns (delta: real)
      requires Paired(r, best, worst, slack) && worst in psiTable && psiTable[worst] >= 0.0
      requires Rooted(Equation(r, best, worst, slack, smoothRate))
      ensures delta == Amount(Equation(r, best, worst, slack, smoothRate), psiTable[worst], sqrt)
    {
      var k := Lag(r.links[best], r.links[worst], r.w, Bits(r));
      var e := Solved(k, smoothRate, slack[best], slack[worst]);
      delta := SolveFor(e, psiTable[worst], sqrt);
    }

    /** Moves the amount that the equation gives. */
    method Shift(best: nat, worst: nat, slack: Shares, r: Reading, sqrt: real -> real) returns (delta: real)
      requires Valid() && best in psiTable && worst in psiTable
      requires Paired(r, best, worst, slack) && Rooted(Equation(r, best, worst, slack, smoothRate))
      modifies this`psiTable
      ensures Valid() && Total(psiTable) == Total(old(psiTable)) && psiTable.Keys == old(psiTable.Keys)
      ensures 0.0 <= delta <= old(psiTable)[worst] && (best == worst ==> delta == 0.0)
      ensures delta == Amount(Equation(r, best, worst, slack, smoothRate), old(psiTable)[worst], sqrt)
      ensures psiTable == Shifted(old(psiTable), best, worst, delta)
    {
      delta := ChooseAmount(best, worst, slack, r, sqrt);
      if best == worst {
        SelfMovesNothing(r.links[best], r.w, Bits(r), smoothRate, slack[best], psiTable[worst], sqrt);
      }
      MoveKeeps(psiTable, best, worst, delta);
      psiTable := psiTable[best := psiTable[best] + delta][worst := psiTable[worst] - delta];
    }

    static method SolveFor(e: Quadratic, share: real, sqrt: real -> real) returns (delta: real)
      requires share >= 0.0 && Rooted(e)
      ensures delta == Amount(e, share, sqrt)
    {
      var discriminant := e.Discriminant();
      if discriminant < 0.0 {
        delta := share;
      } else {
        var root: real;
        if e.a == 0.0 {
          root := -e.c / e.b;
        } else {
          root := (-e.b + sqrt(discriminant)) / (2.0 * e.a);
        }
        if root < 0.0 {
          root := 0.0;
        }
        delta := if root > share then share else root;
      }
    }

    /** Prices all paths and picks the extremes. */
    method PriceAll(r: Reading, len: nat) returns (best: nat, worst: nat, slack: Shares)
      requires Valid() && psiTable != map[] && r.rate == Offered(len, r.t)
      requires r.averageLen == averagePacketLen && r.w == w
      requires Defined(r, psiTable, costTable, smoothRate)
      modifies this`costTable, this`smoothRate
      ensures Valid() && IsPriced(r, psiTable, old(costTable), old(smoothRate), costTable, slack, smoothRate)
      ensures AreExtremes(costTable, best, worst)
      ensures Paired(r, best, worst, slack) && Rooted(Equation(r, best, worst, slack, smoothRate))
    {
      ghost var s, cost := smoothRate, costTable;
      var keys := Keys(costTable.Keys);
      CostsKeepKeys(r, psiTable, cost, s);
      slack := UpdateCosts(keys, r.links, r.t, len);
      best, worst := Extremes(keys);
      ExtremesRooted(r, psiTable, cost, keys, s, best, worst);
    }

    /** Moves share from the costliest to the cheapest path: the amount that the equation gives
        for their lag and slack. Shares stay non-negative and their sum stays what it was, even
        when all paths cost the same. */
    method Update(r: Reading, now: nat, len: nat, sqrt: real -> real)
        returns (best: nat, worst: nat, delta: real, ghost slack: Shares)
      requires Valid() && psiTable != map[] && r == ReadingAt(now, len, r.links)
      requires Defined(r, psiTable, costTable, smoothRate)
      modifies this`costTable, this`smoothRate, this`psiTable, this`lastTs
      ensures Valid() && lastTs == now
      ensures Total(psiTable) == Total(old(psiTable)) && psiTable.Keys == old(psiTable.Keys)
      ensures IsPriced(r, old(psiTable), old(costTable), old(smoothRate), costTable, slack, smoothRate)
      ensures AreExtremes(costTable, best, worst) && best in old(psiTable) && worst in old(psiTable)
      ensures 0.0 <= delta <= old(psiTable)[worst] && (best == worst ==> delta == 0.0)
      ensures Paired(r, best, worst, slack) && Rooted(Equation(r, best, worst, slack, smoothRate))
      ensures delta == Amount(Equation(r, best, worst, slack, smoothRate), old(psiTable)[worst], sqrt)
      ensures psiTable == Shifted(old(psiTable), best, worst, delta)
    {
      lastTs := now;
      var left;
      best, worst, left := PriceAll(r, len);
      delta := Shift(best, worst, left, r, sqrt);
      slack := left;
    }

    function ReadingAt(now: nat, len: nat, links: map<nat, Link>): Reading
      reads this
    {
      var t := (now - lastTs) % TWO32;
      Reading(links, t, Offered(len, t), averagePacketLen, w)
    }

    /** An update reads the time since the last one, the rate at which the frame's bytes came in it, and the average
        packet. */
    lemma ReadingIs(now: nat, len: nat, links: map<nat, Link>)
      ensures var r := ReadingAt(now, len, links);
              && r.links == links && r.averageLen == averagePacketLen && r.w == w && Elapsed(r.t, lastTs, now)
              && r.rate * r.t as real == (if r.t == 0 then 0.0 else 8000.0 * len as real)
    {
      OfferedBrings(len, ReadingAt(now, len, links).t);
    }
  }
}
