/** Handing out packets by shares of the traffic: rounded down, shares become the weights of
    a weighted round robin. */
module EdcldDispatch {
  import opened Ordered
  import opened Schedule
  import opened Shares
  import opened Wrr
  import opened WrrSchedule

  // ---- the packets per path ----

  /** What a share of n packets comes to. */
  function Part(n: nat, share: real): real {
    n as real * share
  }

  /** The packets a share is worth, rounded down. */
  function Worth(n: nat, share: real): nat
    requires share >= 0.0
  {
    Part(n, share).Floor
  }

  lemma WorthPositiveIff(n: nat, share: real)
    requires share >= 0.0
    ensures Worth(n, share) > 0 <==> Part(n, share) >= 1.0
  {
  }

  lemma OneMore(n: nat, bound: real, v: real, rest: real)
    requires v < bound && (if n == 0 then rest == 0.0 else rest < Part(n, bound))
    ensures v + rest < Part(n + 1, bound)
  {
    assert Part(n + 1, bound) == Part(n, bound) + bound;
  }

  lemma {:induction false} TotalBelow(m: Shares, bound: real)
    requires m != map[] && forall k :: k in m ==> m[k] < bound
    ensures Total(m) < Part(|m|, bound)
    decreases |m|
  {
    var k := Least(m.Keys);
    var rest := m - {k};
    assert |rest.Keys| == |m.Keys| - 1;
    TotalRemove(m, k);
    if rest != map[] {
      TotalBelow(rest, bound);
    }
    OneMore(|rest|, bound, m[k], Total(rest));
  }

  /** Some share is worth a packet. */
  ghost predicate Serves(psi: Shares, n: nat) {
    exists p :: p in psi && Part(n, psi[p]) >= 1.0
  }

  lemma UnservedBelow(psi: Shares, n: nat, p: nat)
    requires n > 0 && p in psi && !Serves(psi, n)
    ensures psi[p] < 1.0 / n as real
  {
  }

  /** With as many packets as paths, some share is worth a packet. */
  lemma EnoughPacketsServe(psi: Shares, n: nat)
    requires Total(psi) == 1.0 && n >= |psi|
    ensures Serves(psi, n)
  {
    assert psi != map[];
    assert n >= |psi| > 0;
    if !Serves(psi, n) {
      forall p | p in psi ensures psi[p] < 1.0 / n as real {
        UnservedBelow(psi, n, p);
      }
      TotalBelow(psi, 1.0 / n as real);
    }
  }

  /** Even shares over m paths. */
  function Even(m: nat, share: real): Shares {
    if m == 0 then map[] else Even(m - 1, share)[m := share]
  }

  lemma {:induction false} EvenAt(m: nat, share: real, p: nat)
    ensures p in Even(m, share) <==> 0 < p <= m
    ensures p in Even(m, share) ==> Even(m, share)[p] == share
  {
    if m > 0 {
      EvenAt(m - 1, share, p);
    }
  }

  lemma TotalInsert(psi: Shares, p: nat, share: real)
    requires p !in psi
    ensures |psi[p := share]| == |psi| + 1 && Total(psi[p := share]) == Total(psi) + share
  {
    TotalRemove(psi[p := share], p);
    assert psi[p := share] - {p} == psi;
    assert psi[p := share].Keys == psi.Keys + {p};
  }

  lemma TimesMore(n: nat, share: real)
    ensures Part(n, share) + share == Part(n + 1, share)
  {
    assert (n + 1) as real == n as real + 1.0;
  }

  lemma MoreTotal(psi: Shares, m: nat, share: real)
    requires Total(psi) == Part(m, share) && m + 1 !in psi
    ensures Total(psi[m + 1 := share]) == Part(m + 1, share)
  {
    TotalInsert(psi, m + 1, share);
    TimesMore(m, share);
  }

  lemma {:induction false} EvenSize(m: nat, share: real)
    ensures |Even(m, share)| == m
  {
    if m > 0 {
      var rest := Even(m - 1, share);
      EvenSize(m - 1, share);
      EvenAt(m - 1, share, m);
      assert |rest[m := share].Keys| == |rest.Keys| + 1;
    }
  }

  lemma NoTotal(share: real)
    ensures Total(Even(0, share)) == Part(0, share)
  {
  }

  lemma {:induction false} EvenTotal(m: nat, share: real)
    ensures Total(Even(m, share)) == Part(m, share)
  {
    if m == 0 {
      NoTotal(share);
    } else {
      EvenTotal(m - 1, share);
      EvenAt(m - 1, share, m);
      MoreTotal(Even(m - 1, share), m - 1, share);
    }
  }

  ghost predicate Distribution(psi: Shares, m: nat) {
    |psi| == m && NonNegative(psi) && Total(psi) == 1.0
  }

  lemma PartBelowOne(m: nat, n: nat, share: real)
    requires n < m && Part(m, share) == 1.0
    ensures 0.0 < share && Part(n, share) < 1.0
  {
    if share <= 0.0 {
      NotPositiveTimes(m as real, share);
    }
    assert (m - n) as real == m as real - n as real;
    assert (m as real - n as real) * share == Part(m, share) - Part(n, share);
  }

  lemma NotPositiveTimes(a: real, b: real)
    requires a >= 0.0 && b <= 0.0
    ensures a * b <= 0.0
  {
  }

  lemma EvenDistribution(m: nat, share: real)
    requires share >= 0.0 && Part(m, share) == 1.0
    ensures Distribution(Even(m, share), m)
  {
    EvenSize(m, share);
    EvenTotal(m, share);
    forall p | p in Even(m, share) ensures Even(m, share)[p] >= 0.0 {
      EvenAt(m, share, p);
    }
  }

  /** Fewer packets than paths, evenly shared, are worth none to any path. */
  lemma EvenServesNobody(m: nat, n: nat, share: real)
    requires n < m && Part(m, share) == 1.0
    ensures Distribution(Even(m, share), m) && !Serves(Even(m, share), n)
  {
    PartBelowOne(m, n, share);
    EvenDistribution(m, share);
    forall p | p in Even(m, share) ensures Part(n, Even(m, share)[p]) < 1.0 {
      EvenAt(m, share, p);
    }
  }

  /** Every distribution over m paths serves n packets exactly when there are as many packets as paths. */
  lemma AllServedIff(m: nat, n: nat)
    ensures (forall psi :: Distribution(psi, m) ==> Serves(psi, n)) <==> n >= m
  {
    if n >= m {
      forall psi | Distribution(psi, m) ensures Serves(psi, n) {
        EnoughPacketsServe(psi, n);
      }
    } else {
      EvenServesNobody(m, n, 1.0 / m as real);
    }
  }

  // ---- the weights ----

  /** The paths whose share is worth a packet, and the packets it is worth. */
  function PathPackets(psi: Shares, n: nat): map<nat, nat> {
    map p | p in psi && psi[p] > 0.0 && Worth(n, psi[p]) > 0 :: Worth(n, psi[p])
  }

  lemma WeighedIff(psi: Shares, n: nat, p: nat)
    requires p in psi
    ensures p in PathPackets(psi, n) <==> Part(n, psi[p]) >= 1.0
    ensures p in PathPackets(psi, n) ==> PathPackets(psi, n)[p] == Worth(n, psi[p]) > 0
  {
    if psi[p] > 0.0 {
      WorthPositiveIff(n, psi[p]);
    } else {
      NotPositiveTimes(n as real, psi[p]);
    }
  }

  /** The round robin is left without a server exactly when no share is worth a packet. */
  lemma NoServerIffNoShareServes(servers: seq<ServerInfo>, psi: Shares, n: nat)
    ensures ServersFor(servers, PathPackets(psi, n)) ==> (servers == [] <==> !Serves(psi, n))
  {
    var weights := PathPackets(psi, n);
    if ServersFor(servers, weights) {
      if servers != [] {
        var p := servers[0].id;
        assert p in weights;
        WeighedIff(psi, n, p);
      }
      if Serves(psi, n) {
        var p :| p in psi && Part(n, psi[p]) >= 1.0;
        WeighedIff(psi, n, p);
        assert HasServer(servers, p);
      }
    }
  }

  ghost predicate SumNear(sum: int, exact: real, m: nat) {
    sum as real <= exact && (if m == 0 then sum as real == exact else exact < (sum + m) as real)
  }

  lemma WorthNext(n: nat, sum: int, total: real, m: nat, share: real)
    requires share >= 0.0 && SumNear(sum, Part(n, total), m)
    ensures SumNear(Worth(n, share) + sum, Part(n, share + total), m + 1)
  {
    assert Part(n, share + total) == Part(n, share) + Part(n, total);
  }

  lemma WeightOf(psi: Shares, n: nat, k: nat)
    requires k in psi && psi[k] >= 0.0
    ensures Ordered.Sum(PathPackets(psi, n)) == Worth(n, psi[k]) + Ordered.Sum(PathPackets(psi - {k}, n))
  {
    var weights := PathPackets(psi, n);
    assert weights - {k} == PathPackets(psi - {k}, n);
    if k in weights {
      SumRemove(weights, k);
    } else {
      WorthPositiveIff(n, psi[k]);
      WeighedIff(psi, n, k);
      assert weights - {k} == weights;
    }
  }

  lemma NothingWeighed(n: nat)
    ensures SumNear(Ordered.Sum(PathPackets(map[], n)), Part(n, Total(map[])), 0)
  {
    assert PathPackets(map[], n) == map[];
  }

  /** The weights add up to the packets, less than one packet per path short. */
  lemma {:induction false} WorthsSum(psi: Shares, n: nat)
    requires NonNegative(psi)
    ensures SumNear(Ordered.Sum(PathPackets(psi, n)), Part(n, Total(psi)), |psi|)
    decreases |psi|
  {
    if psi == map[] {
      NothingWeighed(n);
    } else {
      var k := Least(psi.Keys);
      var rest := psi - {k};
      assert |rest.Keys| == |psi.Keys| - 1;
      WorthsSum(rest, n);
      TotalRemove(psi, k);
      WeightOf(psi, n, k);
      WorthNext(n, Ordered.Sum(PathPackets(rest, n)), Total(rest), |rest|, psi[k]);
    }
  }

  /** The packets a path gets are less than one short of its exact share, and exceed it by less
      than there are paths. */
  ghost predicate NearShareDown(count: nat, n: nat, share: real, m: nat) {
    Part(n, share) - 1.0 < count as real < Part(n, share) + m as real
  }

  /** A path that is not weighed is worth no packet. */
  lemma UnweighedNear(n: nat, psi: Shares, p: nat)
    requires p in psi && NonNegative(psi) && p !in PathPackets(psi, n)
    ensures NearShareDown(0, n, psi[p], |psi|)
  {
    WeighedIff(psi, n, p);
  }

  lemma WeightsWithin(psi: Shares, n: nat)
    requires NonNegative(psi) && Total(psi) == 1.0
    ensures SumNear(Ordered.Sum(PathPackets(psi, n)), n as real, |psi|)
    ensures Ordered.Sum(PathPackets(psi, n)) <= n
  {
    WorthsSum(psi, n);
    assert Part(n, Total(psi)) == n as real;
  }

  /** However the picks fell, every path is near its share. */
  lemma DispatchNearShare(calls: seq<Assignment>, ids: seq<nat>, picks: seq<nat>, servers: seq<ServerInfo>,
                          psi: Shares, p: nat)
    requires p in psi && NonNegative(psi) && Total(psi) == 1.0
    requires ServersFor(servers, PathPackets(psi, |calls|)) && WellFormed(servers)
    requires Follows(calls, ids, picks, servers)
    requires calls != [] ==> Cycle(servers) != [] && picks == Picks(Cycle(servers), [], |calls|)
    ensures NearShareDown(CountPid(calls, p), |calls|, psi[p], |psi|)
  {
    var weights := PathPackets(psi, |calls|);
    if p in weights {
      WeighedIff(psi, |calls|, p);
      WeightsWithin(psi, |calls|);
      CountNear(calls, picks, servers, weights, p);
    } else {
      CallsAvoid(calls, p);
      UnweighedNear(|calls|, psi, p);
    }
  }

  lemma CountNear(calls: seq<Assignment>, picks: seq<nat>, servers: seq<ServerInfo>, weights: map<nat, nat>, p: nat)
    requires p in weights && weights[p] > 0 && ServersFor(servers, weights) && WellFormed(servers)
    requires calls != [] && |calls| == |picks| && Cycle(servers) != []
    requires forall t :: 0 <= t < |calls| ==> picks[t] < |servers| && calls[t].pid == servers[picks[t]].id
    requires picks == Picks(Cycle(servers), [], |calls|) && SumWeights(servers) <= |calls|
    ensures weights[p] <= CountPid(calls, p) <= weights[p] + (|calls| - SumWeights(servers))
  {
    assert HasServer(servers, p);
    var j :| 0 <= j < |servers| && servers[j].id == p;
    CallsFollowPicks(calls, picks, servers, j);
    PicksNearWeight(servers, j, |calls|);
  }

  /** Every packet goes out once, in id order, to a path whose share is worth a packet, and
      every path is near its share. */
  method WeightRoundRobinSchedule(packets: map<nat, nat>, psi: Shares) returns (calls: seq<Assignment>)
    requires packets != map[] ==> Serves(psi, |packets|)
    ensures EachPacketOnce(calls, packets)
    ensures forall t :: 0 <= t < |calls| ==> calls[t].pid in PathPackets(psi, |packets|)
    ensures NonNegative(psi) && Total(psi) == 1.0 ==>
              forall p :: p in psi ==> NearShareDown(CountPid(calls, p), |packets|, psi[p], |psi|)
  {
    calls := [];
    var keys := Iterate(packets.Keys);
    var weights := PathPackets(psi, |packets|);
    var wrr := BuildServers(weights);
    ghost var picks: seq<nat> := [];
    if packets != map[] {
      NoServerIffNoShareServes(wrr.servers, psi, |packets|);
      CycleNotEmpty(wrr.servers);
      calls, picks := Dispatch(keys, wrr);
    }
    OnlyUsable(calls, keys, picks, wrr.servers, weights);
    assert PacketIds(calls) == keys;
    if NonNegative(psi) && Total(psi) == 1.0 {
      forall p | p in psi ensures NearShareDown(CountPid(calls, p), |packets|, psi[p], |psi|) {
        DispatchNearShare(calls, keys, picks, wrr.servers, psi, p);
      }
    }
  }
}
