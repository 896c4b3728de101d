/** What every scheduler shares: the calls it makes and its plain fallback. */
module Schedule {
  import opened Ordered

  /** One PacketSchedule(packet, pid) call on the sender. */
  datatype Assignment = Assignment(packet: nat, pid: nat)

  /** What a scheduler reads of a path. */
  datatype PathInfo = PathInfo(rtt: nat, instantRate: nat, smoothRate: nat)

  ghost predicate Distinct(pids: seq<nat>) {
    forall i, j :: 0 <= i < j < |pids| ==> pids[i] != pids[j]
  }

  ghost function PacketIds(calls: seq<Assignment>): seq<nat> {
    seq(|calls|, t requires 0 <= t < |calls| => calls[t].packet)
  }

  /** The packets are handed out once each, in ascending id order. */
  ghost predicate EachPacketOnce(calls: seq<Assignment>, packets: map<nat, nat>) {
    InOrder(PacketIds(calls), packets.Keys)
  }

  /** How many of the calls go to a path. */
  ghost function CountPid(calls: seq<Assignment>, pid: nat): nat {
    if calls == [] then 0
    else (if calls[0].pid == pid then 1 else 0) + CountPid(calls[1..], pid)
  }

  ghost function Len(packets: map<nat, nat>, id: nat): nat {
    if id in packets then packets[id] else 0
  }

  ghost function LenUpTo(ids: seq<nat>, packets: map<nat, nat>, n: nat): nat
    requires n <= |ids|
  {
    if n == 0 then 0 else LenUpTo(ids, packets, n - 1) + Len(packets, ids[n - 1])
  }

  /** Listing the packets in order adds up their lengths. */
  lemma {:induction false} LensAddUp(ids: seq<nat>, packets: map<nat, nat>)
    requires InOrder(ids, packets.Keys)
    ensures LenUpTo(ids, packets, |ids|) == Sum(packets)
  {
    if ids == [] {
      assert packets == map[];
    } else {
      var last, front := ids[|ids| - 1], ids[..|ids| - 1];
      DropGreatest(ids, packets.Keys);
      assert (packets - {last}).Keys == packets.Keys - {last};
      LensAddUp(front, packets - {last});
      LastLen(ids, packets);
    }
  }

  lemma LastLen(ids: seq<nat>, packets: map<nat, nat>)
    requires ids != [] && Increasing(ids) && ids[|ids| - 1] in packets
    ensures var last, front := ids[|ids| - 1], ids[..|ids| - 1];
            && LenUpTo(ids, packets, |ids|) == LenUpTo(front, packets - {last}, |front|) + packets[last]
            && Sum(packets) == Sum(packets - {last}) + packets[last]
  {
    var n, last := |ids|, ids[|ids| - 1];
    LensWithout(ids, packets, last, n - 1);
    LensFront(ids, ids[..n - 1], packets - {last}, n - 1);
    SumRemove(packets, last);
  }

  lemma {:induction false} LensWithout(ids: seq<nat>, packets: map<nat, nat>, last: nat, n: nat)
    requires n <= |ids| && forall t :: 0 <= t < n ==> ids[t] != last
    ensures LenUpTo(ids, packets - {last}, n) == LenUpTo(ids, packets, n)
  {
    if n > 0 {
      LensWithout(ids, packets, last, n - 1);
    }
  }

  lemma {:induction false} LensFront(ids: seq<nat>, front: seq<nat>, packets: map<nat, nat>, n: nat)
    requires n <= |front| <= |ids| && forall t :: 0 <= t < n ==> ids[t] == front[t]
    ensures LenUpTo(front, packets, n) == LenUpTo(ids, packets, n)
  {
    if n > 0 {
      LensFront(ids, front, packets, n - 1);
    }
  }

  method RoundRobin(packets: map<nat, nat>, pids: seq<nat>) returns (calls: seq<Assignment>)
    requires packets != map[] ==> pids != []
    ensures EachPacketOnce(calls, packets)
    ensures forall t :: 0 <= t < |calls| ==> calls[t].pid == pids[t % |pids|]
  {
    calls := [];
    var total := |pids|;
    var ids := Iterate(packets.Keys);
    for lastIndex := 0 to |ids|
      invariant |calls| == lastIndex
      invariant forall t :: 0 <= t < lastIndex ==> calls[t] == Assignment(ids[t], pids[t % total])
    {
      calls := calls + [Assignment(ids[lastIndex], pids[lastIndex % total])];
    }
    assert PacketIds(calls) == ids;
  }
}
