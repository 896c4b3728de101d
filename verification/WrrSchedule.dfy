/** Proportional allotment: path rates become rounded weights of a weighted
    round robin. */
module WrrSchedule {
  import opened Arithmetic
  import opened Ordered
  import opened Sequences
  import opened Schedule
  import opened Wrr

  /** The share p * rate / total of p packets, rounded to the nearest integer. */
  function Weight(p: nat, rate: nat, total: nat): nat
    requires total > 0
  {
    (2 * p * rate + total) / (2 * total)
  }

  lemma WeightPositive(p: nat, rate: nat, total: nat)
    requires total > 0
    ensures Weight(p, rate, total) > 0 <==> 2 * p * rate >= total
  {
    QuotientPositive(2 * p * rate + total, 2 * total);
  }

  ghost predicate Within(x: int, bound: int) {
    -bound <= x <= bound
  }

  lemma WeightNearShare(p: nat, rate: nat, total: nat)
    requires total > 0
    ensures Within(2 * total * Weight(p, rate, total) - 2 * p * rate, total)
  {
    var a, d := 2 * p * rate + total, 2 * total;
    assert a == d * (a / d) + a % d;
  }

  function Weights(p: nat, rates: map<nat, nat>, total: nat): map<nat, nat>
    requires total > 0
  {
    map pid | pid in rates :: Weight(p, rates[pid], total)
  }

  lemma SplitLeast(p: nat, rates: map<nat, nat>, total: nat, k: nat)
    requires total > 0 && k in rates
    ensures |rates - {k}| == |rates| - 1
    ensures Sum(rates) == rates[k] + Sum(rates - {k})
    ensures Sum(Weights(p, rates, total)) == Weight(p, rates[k], total) + Sum(Weights(p, rates - {k}, total))
  {
    assert (rates - {k}).Keys == rates.Keys - {k};
    SumRemove(rates, k);
    SumRemove(Weights(p, rates, total), k);
    assert Weights(p, rates, total) - {k} == Weights(p, rates - {k}, total);
  }

  /** The weights add up to the number of packets, give or take half a packet a path. */
  lemma {:induction false} WeightsNearPackets(p: nat, rates: map<nat, nat>, total: nat)
    requires total > 0
    ensures Within(2 * total * Sum(Weights(p, rates, total)) - 2 * p * Sum(rates), total * |rates|)
    decreases |rates|
  {
    if rates == map[] {
      assert Weights(p, rates, total) == map[];
    } else {
      var k := Least(rates.Keys);
      SplitLeast(p, rates, total, k);
      var rest := rates - {k};
      WeightsNearPackets(p, rest, total);
      WeightNearShare(p, rates[k], total);
      Distribute(total, Weight(p, rates[k], total), Sum(Weights(p, rest, total)), p, rates[k], Sum(rest), |rest|);
    }
  }

  lemma Distribute(total: nat, w: nat, ws: int, p: nat, r: nat, rs: int, n: nat)
    requires Within(2 * total * w - 2 * p * r, total)
    requires Within(2 * total * ws - 2 * p * rs, total * n)
    ensures Within(2 * total * (w + ws) - 2 * p * (r + rs), total * (n + 1))
  {
    assert 2 * total * (w + ws) == 2 * total * w + 2 * total * ws;
    assert 2 * p * (r + rs) == 2 * p * r + 2 * p * rs;
    assert total * (n + 1) == total * n + total;
  }

  /** The packets a path gets are within (n + 1) / 2 of its exact share. */
  ghost predicate NearShare(count: nat, p: nat, rate: nat, total: int, n: nat) {
    Within(2 * total * count - 2 * p * rate, total * (n + 1))
  }

  lemma FairCount(count: nat, p: nat, rate: nat, total: nat, n: nat, sum: nat)
    requires total > 0 && Within(2 * total * sum - 2 * p * total, total * n)
    requires var w := Weight(p, rate, total);
             && (p <= sum ==> w - (sum - p) <= count <= w)
             && (sum <= p ==> w <= count <= w + (p - sum))
    ensures NearShare(count, p, rate, total, n)
  {
    var w := Weight(p, rate, total);
    WeightNearShare(p, rate, total);
    var d := if p <= sum then sum - p else p - sum;
    assert 2 * total * sum - 2 * p * total == 2 * total * (sum - p) by {
      assert 2 * total * (sum - p) == 2 * total * sum - 2 * total * p;
    }
    Scale(total, d, n, 2 * total * (sum - p));
    ScaleWithin(2 * total, count - w, d);
    AddUp(2 * total, count, w, 2 * p * rate, total, 2 * total * d, n);
  }

  lemma AddUp(c: nat, count: nat, w: nat, share: nat, total: nat, drift: nat, n: nat)
    requires Within(c * (count - w), drift) && Within(c * w - share, total) && drift <= total * n
    ensures Within(c * count - share, total * (n + 1))
  {
    assert c * (count - w) == c * count - c * w;
    assert total * (n + 1) == total * n + total;
  }

  lemma Scale(total: nat, d: nat, n: nat, diff: int)
    requires Within(diff, total * n) && (diff == 2 * total * d || diff == -(2 * total * d))
    ensures 2 * total * d <= total * n
  {
  }

  lemma ScaleWithin(c: nat, x: int, d: nat)
    requires Within(x, d)
    ensures Within(c * x, c * d)
  {
    assert c * (d - x) >= 0 && c * (x + d) >= 0;
    assert c * (d - x) == c * d - c * x && c * (x + d) == c * x + c * d;
  }

  ghost predicate ServersWithin(servers: seq<ServerInfo>, weights: map<nat, nat>) {
    forall j :: 0 <= j < |servers| ==>
      servers[j].id in weights && servers[j].weight == weights[servers[j].id] > 0
  }

  ghost predicate ServersCover(servers: seq<ServerInfo>, weights: map<nat, nat>) {
    forall pid :: pid in weights && weights[pid] > 0 ==> HasServer(servers, pid)
  }

  /** The server list that the weights call for: every path of positive weight
      once, and nothing else. */
  ghost predicate ServersFor(servers: seq<ServerInfo>, weights: map<nat, nat>) {
    && ServersWithin(servers, weights)
    && ServersCover(servers, weights)
    && SumWeights(servers) == Sum(weights)
  }

  lemma KeepsWithin(servers: seq<ServerInfo>, more: seq<ServerInfo>, weights: map<nat, nat>, pid: nat, weight: nat)
    requires ServersWithin(servers, weights) && pid !in weights
    requires more == if weight == 0 then servers else servers + [ServerInfo(pid, weight)]
    ensures ServersWithin(more, weights[pid := weight])
  {
  }

  lemma KeepsCover(servers: seq<ServerInfo>, more: seq<ServerInfo>, weights: map<nat, nat>, pid: nat, weight: nat)
    requires ServersCover(servers, weights) && pid !in weights
    requires more == if weight == 0 then servers else servers + [ServerInfo(pid, weight)]
    ensures ServersCover(more, weights[pid := weight])
  {
    var after := weights[pid := weight];
    forall q: nat | q in after.Keys && after[q] > 0
      ensures HasServer(more, q)
    {
      if q == pid {
        assert more[|servers|].id == q;
      } else {
        assert HasServer(servers, q);
        var j :| 0 <= j < |servers| && servers[j].id == q;
        assert more[j].id == q;
      }
    }
  }

  lemma KeepsServersFor(servers: seq<ServerInfo>, more: seq<ServerInfo>, weights: map<nat, nat>, pid: nat, weight: nat)
    requires ServersFor(servers, weights) && pid !in weights
    requires more == if weight == 0 then servers else servers + [ServerInfo(pid, weight)]
    ensures ServersFor(more, weights[pid := weight])
  {
    KeepsWithin(servers, more, weights, pid, weight);
    KeepsCover(servers, more, weights, pid, weight);
    SumInsert(weights, pid, weight);
    if weight > 0 {
      SumUpToPrefix(servers, [ServerInfo(pid, weight)], |servers|);
    }
  }

  lemma NewServer(servers: seq<ServerInfo>, weights: map<nat, nat>, pid: nat)
    requires ServersWithin(servers, weights) && pid !in weights
    ensures !HasServer(servers, pid)
  {
  }

  ghost predicate AddedSoFar(added: map<nat, nat>, pids: seq<nat>, k: nat)
    requires k <= |pids|
  {
    && (forall j :: 0 <= j < k ==> pids[j] in added)
    && (forall j :: k <= j < |pids| ==> pids[j] !in added)
  }

  lemma AddNext(added: map<nat, nat>, pids: seq<nat>, k: nat, weight: nat)
    requires k < |pids| && Increasing(pids) && AddedSoFar(added, pids, k)
    ensures AddedSoFar(added[pids[k] := weight], pids, k + 1)
  {
  }

  lemma AddedAll(added: map<nat, nat>, pids: seq<nat>, weights: map<nat, nat>)
    requires AddedSoFar(added, pids, |pids|) && InOrder(pids, weights.Keys)
    requires forall pid :: pid in added ==> pid in weights && added[pid] == weights[pid]
    ensures added == weights
  {
  }

  method BuildServers(weights: map<nat, nat>) returns (wrr: WeightRoundRobin)
    ensures fresh(wrr) && wrr.Valid() && wrr.i == -1
    ensures ServersFor(wrr.servers, weights)
  {
    wrr := new WeightRoundRobin();
    var pids := Iterate(weights.Keys);
    ghost var added: map<nat, nat> := map[];
    for k := 0 to |pids|
      invariant wrr.Valid() && wrr.i == -1
      invariant forall pid :: pid in added ==> pid in weights && added[pid] == weights[pid]
      invariant AddedSoFar(added, pids, k)
      invariant ServersFor(wrr.servers, added)
    {
      var pid := pids[k];
      ghost var before := wrr.servers;
      NewServer(before, added, pid);
      wrr.AddServer(pid, weights[pid]);
      KeepsServersFor(before, wrr.servers, added, pid, weights[pid]);
      AddNext(added, pids, k, weights[pid]);
      added := added[pid := weights[pid]];
    }
    AddedAll(added, pids, weights);
  }

  /** The calls to a server's path are the picks of that server. */
  lemma {:induction false} CallsFollowPicks(calls: seq<Assignment>, picks: seq<nat>, servers: seq<ServerInfo>, j: nat)
    requires |calls| == |picks| && j < |servers|
    requires WellFormed(servers)
    requires forall t :: 0 <= t < |picks| ==> picks[t] < |servers| && calls[t].pid == servers[picks[t]].id
    ensures CountPid(calls, servers[j].id) == Count(picks, j)
  {
    if calls != [] {
      CallsFollowPicks(calls[1..], picks[1..], servers, j);
      assert picks[0] == j <==> calls[0].pid == servers[j].id;
    }
  }

  lemma {:induction false} CallsAvoid(calls: seq<Assignment>, pid: nat)
    requires forall t :: 0 <= t < |calls| ==> calls[t].pid != pid
    ensures CountPid(calls, pid) == 0
  {
    if calls != [] {
      CallsAvoid(calls[1..], pid);
    }
  }

  lemma SumPositive(m: map<nat, nat>)
    requires m != map[] && forall k :: k in m ==> m[k] > 0
    ensures Sum(m) > 0
    decreases |m|
  {
    var k := Least(m.Keys);
    assert (m - {k}).Keys == m.Keys - {k};
    if m - {k} != map[] {
      SumPositive(m - {k});
    }
  }

  /** The t-th call sends the t-th packet to the path of the t-th pick. */
  ghost predicate Follows(calls: seq<Assignment>, ids: seq<nat>, picks: seq<nat>, servers: seq<ServerInfo>) {
    && |calls| == |picks| <= |ids|
    && forall t :: 0 <= t < |calls| ==>
         picks[t] < |servers| && calls[t] == Assignment(ids[t], servers[picks[t]].id)
  }

  lemma FollowsStep(calls: seq<Assignment>, ids: seq<nat>, picks: seq<nat>, servers: seq<ServerInfo>, k: nat)
    requires Follows(calls, ids, picks, servers) && |calls| < |ids| && k < |servers|
    ensures Follows(calls + [Assignment(ids[|calls|], servers[k].id)], ids, picks + [k], servers)
  {
  }

  /** The dispatch loop: one GetServer call a packet. */
  method Dispatch(keys: seq<nat>, wrr: WeightRoundRobin)
    returns (calls: seq<Assignment>, ghost picks: seq<nat>)
    requires wrr.Valid() && wrr.Due() == [] && wrr.servers != [] && Cycle(wrr.servers) != []
    modifies wrr`maxWeight, wrr`cw, wrr`i
    ensures |calls| == |keys| && Follows(calls, keys, picks, wrr.servers)
    ensures picks == Picks(Cycle(wrr.servers), [], |keys|)
  {
    calls, picks := [], [];
    ghost var cycle, p := Cycle(wrr.servers), |keys|;
    ghost var rest: seq<nat> := [];
    assert [] + Picks(cycle, [], p) == Picks(cycle, [], p);
    for t := 0 to |keys|
      invariant wrr.Valid() && rest == wrr.Due()
      invariant |calls| == t && Follows(calls, keys, picks, wrr.servers)
      invariant picks + Picks(cycle, rest, p - t) == Picks(cycle, [], p)
    {
      PicksStep(cycle, picks, rest, p - t);
      rest := Refill(cycle, rest);
      var server := wrr.GetServer();
      FollowsStep(calls, keys, picks, wrr.servers, rest[0]);
      calls := calls + [Assignment(keys[t], server)];
      picks := picks + [rest[0]];
      rest := rest[1..];
    }
    assert picks + Picks(cycle, rest, 0) == picks;
  }

  /** However the picks fell, every path is near its share. */
  lemma DispatchIsFair(calls: seq<Assignment>, ids: seq<nat>, picks: seq<nat>, servers: seq<ServerInfo>,
                       rates: map<nat, nat>, pid: nat)
    requires pid in rates && Sum(rates) > 0
    requires ServersFor(servers, Weights(|calls|, rates, Sum(rates)))
    requires WellFormed(servers)
    requires Follows(calls, ids, picks, servers)
    requires calls != [] ==> Cycle(servers) != [] && picks == Picks(Cycle(servers), [], |calls|)
    ensures NearShare(CountPid(calls, pid), |calls|, rates[pid], Sum(rates), |rates|)
  {
    var p, total := |calls|, Sum(rates);
    var weights := Weights(p, rates, total);
    if weights[pid] == 0 {
      NotServed(calls, ids, picks, servers, weights, pid);
      ShareOfNothing(p, rates[pid], total, |rates|);
    } else {
      assert HasServer(servers, pid);
      var j :| 0 <= j < |servers| && servers[j].id == pid;
      if calls == [] {
        WeightPositive(0, rates[pid], total);
      } else {
        CallsFollowPicks(calls, picks, servers, j);
        PicksNearWeight(servers, j, p);
        WeightsNearPackets(p, rates, total);
        FairCount(CountPid(calls, pid), p, rates[pid], total, |rates|, SumWeights(servers));
      }
    }
  }

  lemma NotServed(calls: seq<Assignment>, ids: seq<nat>, picks: seq<nat>, servers: seq<ServerInfo>,
                  weights: map<nat, nat>, pid: nat)
    requires Follows(calls, ids, picks, servers) && ServersWithin(servers, weights)
    requires pid in weights && weights[pid] == 0
    ensures CountPid(calls, pid) == 0
  {
    CallsAvoid(calls, pid);
  }

  lemma ShareOfNothing(p: nat, rate: nat, total: nat, n: nat)
    requires total > 0 && Weight(p, rate, total) == 0
    ensures NearShare(0, p, rate, total, n)
  {
    WeightNearShare(p, rate, total);
    assert total * (n + 1) == total * n + total && total * n >= 0;
  }

  method RoundWeights(p: nat, rates: map<nat, nat>, total: nat) returns (weights: map<nat, nat>)
    requires total > 0
    ensures weights == Weights(p, rates, total)
  {
    weights := map[];
    var pids := Iterate(rates.Keys);
    for k := 0 to |pids|
      invariant forall pid :: pid in weights ==> pid in rates && weights[pid] == Weight(p, rates[pid], total)
      invariant forall j :: 0 <= j < k ==> pids[j] in weights
    {
      weights := weights[pids[k] := Weight(p, rates[pids[k]], total)];
    }
  }

  /** The weighted part of IncomingPackets. */
  method AllotByRate(packets: map<nat, nat>, rates: map<nat, nat>, total: nat) returns (calls: seq<Assignment>)
    requires total > 0 && total == Sum(rates)
    requires packets != map[] ==> ShareRoundsUp(|packets|, rates)
    ensures EachPacketOnce(calls, packets)
    ensures forall t :: 0 <= t < |calls| ==> calls[t].pid in rates
    ensures forall pid :: pid in rates ==>
              NearShare(CountPid(calls, pid), |packets|, rates[pid], total, |rates|)
  {
    calls := [];
    var keys := Iterate(packets.Keys);
    var weights := RoundWeights(|packets|, rates, total);
    var wrr := BuildServers(weights);
    ghost var picks: seq<nat> := [];
    if packets != map[] {
      ServerIffShareRoundsUp(wrr.servers, weights, |packets|, rates);
      CycleNotEmpty(wrr.servers);
      calls, picks := Dispatch(keys, wrr);
    }
    OnlyUsable(calls, keys, picks, wrr.servers, weights);
    assert PacketIds(calls) == keys;
    assert |calls| == |packets| && ServersFor(wrr.servers, Weights(|calls|, rates, Sum(rates)));
    forall pid | pid in rates
      ensures NearShare(CountPid(calls, pid), |packets|, rates[pid], total, |rates|)
    {
      DispatchIsFair(calls, keys, picks, wrr.servers, rates, pid);
    }
  }

  lemma OnlyUsable(calls: seq<Assignment>, ids: seq<nat>, picks: seq<nat>, servers: seq<ServerInfo>,
                   weights: map<nat, nat>)
    requires Follows(calls, ids, picks, servers) && ServersWithin(servers, weights)
    ensures forall t :: 0 <= t < |calls| ==> calls[t].pid in weights && calls[t].packet == ids[t]
  {
  }

  ghost predicate ShareRoundsUp(p: nat, rates: map<nat, nat>) {
    exists pid :: pid in rates && 2 * p * rates[pid] >= Sum(rates)
  }

  /** GetServer is left without a server exactly when no share rounds up to one
      packet: the guard that the program does not have. */
  lemma NoServerIffNoShareRoundsUp(servers: seq<ServerInfo>, p: nat, rates: map<nat, nat>)
    requires Sum(rates) > 0
    ensures ServersFor(servers, Weights(p, rates, Sum(rates))) ==> (servers == [] <==> !ShareRoundsUp(p, rates))
  {
    if ServersFor(servers, Weights(p, rates, Sum(rates))) {
      ServerIffShareRoundsUp(servers, Weights(p, rates, Sum(rates)), p, rates);
    }
  }

  lemma ServerIffShareRoundsUp(servers: seq<ServerInfo>, weights: map<nat, nat>, p: nat, rates: map<nat, nat>)
    requires Sum(rates) > 0 && ServersFor(servers, weights) && weights == Weights(p, rates, Sum(rates))
    ensures servers == [] <==> !ShareRoundsUp(p, rates)
  {
    if servers != [] {
      var pid := servers[0].id;
      WeightPositive(p, rates[pid], Sum(rates));
      assert 2 * p * rates[pid] >= Sum(rates);
    }
    if ShareRoundsUp(p, rates) {
      var pid :| pid in rates && 2 * p * rates[pid] >= Sum(rates);
      WeightPositive(p, rates[pid], Sum(rates));
      assert HasServer(servers, pid);
    }
  }

  /** Half as many packets as usable paths are enough. */
  lemma EnoughPackets(p: nat, rates: map<nat, nat>)
    requires rates != map[] && Sum(rates) > 0 && 2 * p >= |rates|
    ensures ShareRoundsUp(p, rates)
  {
    if !ShareRoundsUp(p, rates) {
      SmallSharesSum(p, rates, Sum(rates));
      TimesMonotone(2 * p, |rates|, Sum(rates));
      assert false;
    }
  }

  lemma {:induction false} SmallSharesSum(p: nat, rates: map<nat, nat>, bound: nat)
    requires rates != map[] && forall pid :: pid in rates ==> 2 * p * rates[pid] < bound
    ensures 2 * p * Sum(rates) < |rates| * bound
    decreases |rates|
  {
    var k := Least(rates.Keys);
    var rest := rates - {k};
    assert rest.Keys == rates.Keys - {k};
    SumRemove(rates, k);
    if rest == map[] {
      forall x | x in rates.Keys ensures x == k {
        assert x == k || x in rest;
      }
      assert rates.Keys == {k};
    } else {
      SmallSharesSum(p, rest, bound);
      AddShare(2 * p, rates[k], Sum(rest), |rest|, bound);
    }
  }

  lemma AddShare(c: nat, rate: nat, sum: int, n: nat, bound: nat)
    requires c * rate < bound && c * sum < n * bound
    ensures c * (rate + sum) < (n + 1) * bound
  {
    assert c * (rate + sum) == c * rate + c * sum;
    assert (n + 1) * bound == n * bound + bound;
  }

  /** Two packets over five equal paths: every share is two fifths of a packet,
      which rounds to nothing. */
  lemma FiveEqualPathsGetNothing(rate: nat)
    requires rate > 0
    ensures !ShareRoundsUp(2, map[1 := rate, 2 := rate, 3 := rate, 4 := rate, 5 := rate])
  {
    var four := map[1 := rate, 2 := rate, 3 := rate, 4 := rate];
    SumInsert(map[], 1, rate);
    SumInsert(map[1 := rate], 2, rate);
    SumInsert(map[1 := rate, 2 := rate], 3, rate);
    SumInsert(map[1 := rate, 2 := rate, 3 := rate], 4, rate);
    SumInsert(four, 5, rate);
    assert four[5 := rate] == map[1 := rate, 2 := rate, 3 := rate, 4 := rate, 5 := rate];
  }

  class WrrSchedule {
    var pids: seq<nat>
    var smoothCost: bool

    constructor (smoothCost: bool)
      ensures pids == [] && this.smoothCost == smoothCost
    {
      this.pids, this.smoothCost := [], smoothCost;
    }

    function Rate(info: PathInfo): nat
      reads this
    {
      if smoothCost then info.smoothRate else info.instantRate
    }

    /** The registered paths with a rate, and that rate. */
    ghost function Rates(paths: map<nat, PathInfo>): map<nat, nat>
      requires forall pid :: pid in pids ==> pid in paths
      reads this
    {
      map pid | pid in pids && Rate(paths[pid]) > 0 :: Rate(paths[pid])
    }

    /** The rates are the smoothed ones or the instant ones, as the schedule was told, where they are not zero. */
    lemma RatesRead(paths: map<nat, PathInfo>, pid: nat, rate: nat)
      requires forall pid :: pid in pids ==> pid in paths
      ensures pid in Rates(paths) && Rates(paths)[pid] == rate <==>
                && rate > 0 && pid in pids
                && (smoothCost ==> rate == paths[pid].smoothRate)
                && (!smoothCost ==> rate == paths[pid].instantRate)
    {
    }

    method CollectRates(paths: map<nat, PathInfo>) returns (rates: map<nat, nat>, total: nat)
      requires Distinct(pids) && forall pid :: pid in pids ==> pid in paths
      ensures rates == Rates(paths) && total == Sum(rates)
    {
      rates, total := map[], 0;
      for k := 0 to |pids|
        invariant forall pid :: pid in rates ==> pid in pids && rates[pid] == Rate(paths[pid]) > 0
        invariant forall j :: 0 <= j < k && Rate(paths[pids[j]]) > 0 ==> pids[j] in rates
        invariant forall j :: k <= j < |pids| ==> pids[j] !in rates
        invariant total == Sum(rates)
      {
        var pid := pids[k];
        var rate := Rate(paths[pid]);
        if rate != 0 {
          SumInsert(rates, pid, rate);
          total := total + rate;
          rates := rates[pid := rate];
        }
      }
    }

    /** The weighted walk has a server to pick. */
    ghost predicate Dispatchable(packets: map<nat, nat>, paths: map<nat, PathInfo>)
      requires forall pid :: pid in pids ==> pid in paths
      reads this
    {
      packets != map[] && Rates(paths) != map[] ==> ShareRoundsUp(|packets|, Rates(paths))
    }

    /** Every packet is scheduled once, in id order; with a usable path, each path
        gets its share of the packets up to (n + 1) / 2. */
    method IncomingPackets(packets: map<nat, nat>, paths: map<nat, PathInfo>) returns (calls: seq<Assignment>)
      requires Distinct(pids) && forall pid :: pid in pids ==> pid in paths
      requires packets != map[] ==> pids != []
      requires |pids| == 1 || |packets| == 1 || Dispatchable(packets, paths)
      ensures EachPacketOnce(calls, packets)
      ensures var rates := Rates(paths);
              if |pids| == 1 || |packets| == 1 || rates == map[] then
                forall t :: 0 <= t < |calls| ==> calls[t].pid == pids[t % |pids|]
              else
                && (forall t :: 0 <= t < |calls| ==> calls[t].pid in rates)
                && (forall pid :: pid in rates ==>
                      NearShare(CountPid(calls, pid), |packets|, rates[pid], Sum(rates), |rates|))
    {
      if |pids| == 1 || |packets| == 1 {
        calls := RoundRobin(packets, pids);
        return;
      }
      var rates, total := CollectRates(paths);
      if total == 0 {
        if rates != map[] {
          SumPositive(rates);
        }
        calls := RoundRobin(packets, pids);
        return;
      }
      calls := AllotByRate(packets, rates, total);
    }
  }
}
