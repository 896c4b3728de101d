/** The first-version sender over several paths: pending and sent packets, stale ones,
    and where a lost packet is sent again. */
module RetransV1 {
  import opened Arithmetic
  import opened Bytes
  import opened Ordered
  import opened PathSenderV1
  import opened Schedule
  import opened Splitting

  const MAX_PACKET_DELAY_THRESHOLD := 500
  const NO_RTT := 0xFFFFFFFF

  // ---- stale packets ----

  predicate IsStale(p: VideoPacket, now: nat) {
    (now - p.generateTs) % TWO32 > MAX_PACKET_DELAY_THRESHOLD
  }

  /** Packets with higher ids are no older, and none is from the future. */
  ghost predicate Aged(buf: map<nat, VideoPacket>, now: nat) {
    && (forall a, b :: a in buf && b in buf && a <= b ==> buf[a].generateTs <= buf[b].generateTs)
    && (forall a :: a in buf ==> buf[a].generateTs <= now)
  }

  ghost predicate Young(buf: map<nat, VideoPacket>, now: nat) {
    forall a :: a in buf ==> now - buf[a].generateTs < TWO32
  }

  function Fresh(buf: map<nat, VideoPacket>, now: nat): map<nat, VideoPacket> {
    map id | id in buf && !IsStale(buf[id], now) :: buf[id]
  }

  /** A packet of age `age` that is not stale vouches for every younger one exactly when
      its age has not wrapped past 32 bits: only then may a scan stop at it. */
  lemma HeadVouchesIff(age: nat)
    ensures (forall a: nat :: a <= age && a % TWO32 > MAX_PACKET_DELAY_THRESHOLD ==>
               age % TWO32 > MAX_PACKET_DELAY_THRESHOLD)
       <==> age % TWO32 > MAX_PACKET_DELAY_THRESHOLD || age <= MAX_PACKET_DELAY_THRESHOLD
  {
    var a: nat := MAX_PACKET_DELAY_THRESHOLD + 1;
    assert a % TWO32 == a;
  }

  /** No stale packet has one before it that passes for fresh. */
  ghost predicate StaleInFront(buf: map<nat, VideoPacket>, now: nat) {
    forall a, b :: a in buf && b in buf && a < b && IsStale(buf[b], now) ==> IsStale(buf[a], now)
  }

  lemma YoungStaleInFront(buf: map<nat, VideoPacket>, now: nat)
    requires Aged(buf, now) && Young(buf, now)
    ensures StaleInFront(buf, now)
  {
  }

  /** A packet whose age has wrapped passes for fresh and hides a stale one behind it. */
  lemma WrappedHidesStale(p: VideoPacket, q: VideoPacket)
    requires p.generateTs == 0 && q.generateTs == TWO32 - 500
    ensures var buf, now := map[1 := p, 2 := q], TWO32 + 100;
            Aged(buf, now) && IsStale(q, now) && !StaleInFront(buf, now)
  {
    var buf, now := map[1 := p, 2 := q], TWO32 + 100;
    assert buf[1] == p && buf[2] == q && !IsStale(p, now);
  }

  ghost predicate RemovedFirst(buf0: map<nat, VideoPacket>, buf: map<nat, VideoPacket>) {
    && buf.Keys <= buf0.Keys
    && forall a, b :: a in buf0 && a !in buf && b in buf ==> a < b
  }

  lemma RemoveLeast(buf0: map<nat, VideoPacket>, buf: map<nat, VideoPacket>, id: nat)
    requires RemovedFirst(buf0, buf) && IsLeast(buf.Keys, id)
    ensures RemovedFirst(buf0, buf - {id})
  {
    assert (buf - {id}).Keys == buf.Keys - {id};
  }

  ghost predicate OnlyStaleRemoved(buf0: map<nat, VideoPacket>, buf: map<nat, VideoPacket>, now: nat) {
    && (forall id :: id in buf ==> id in buf0 && buf[id] == buf0[id])
    && (forall id :: id in buf0 && id !in buf ==> (now - buf0[id].generateTs) % TWO32 > 500)
  }

  lemma StoppedRightIff(buf0: map<nat, VideoPacket>, buf: map<nat, VideoPacket>, now: nat)
    requires RemovedFirst(buf0, buf) && OnlyStaleRemoved(buf0, buf, now)
    requires buf != map[] ==> !IsStale(buf[Least(buf.Keys)], now)
    ensures buf == Fresh(buf0, now) <==> StaleInFront(buf0, now)
  {
    if buf != map[] && StaleInFront(buf0, now) {
      forall k | k in buf ensures !IsStale(buf0[k], now) {
        var id := Least(buf.Keys);
        assert id <= k && id in buf.Keys;
      }
    }
    if buf == Fresh(buf0, now) {
      forall a, b | a in buf0 && b in buf0 && a < b && IsStale(buf0[b], now) ensures IsStale(buf0[a], now) {
        assert b !in buf;
      }
    }
  }

  /** Looking only at the oldest packet removes stale packets only - and all of them exactly
      when none has one before it that passes for fresh. */
  method DropStale(buf0: map<nat, VideoPacket>, now: nat) returns (buf: map<nat, VideoPacket>)
    ensures OnlyStaleRemoved(buf0, buf, now)
    ensures buf == Fresh(buf0, now) <==> StaleInFront(buf0, now)
    ensures buf != map[] ==> (now - buf[Least(buf.Keys)].generateTs) % TWO32 <= 500
  {
    buf := buf0;
    while buf != map[]
      invariant RemovedFirst(buf0, buf) && OnlyStaleRemoved(buf0, buf, now)
      decreases |buf|
    {
      var id := Least(buf.Keys);
      if IsStale(buf[id], now) {
        assert |(buf - {id}).Keys| < |buf.Keys|;
        RemoveLeast(buf0, buf, id);
        buf := buf - {id};
      } else {
        break;
      }
    }
    StoppedRightIff(buf0, buf, now);
  }

  // ---- the scheduler's part ----

  /** A path that a packet lost on `origin` can go to. */
  predicate Eligible(rtts: map<nat, nat>, origin: nat, pid: nat) {
    pid != origin && pid in rtts && rtts[pid] < NO_RTT
  }

  ghost predicate AllRated(pids: seq<nat>, rtts: map<nat, nat>) {
    forall i :: 0 <= i < |pids| ==> pids[i] in rtts
  }

  /** Nothing before place n is eligible and better than what was found. */
  ghost predicate BestSoFar(pids: seq<nat>, rtts: map<nat, nat>, origin: nat, n: nat, best: nat, rtt: nat)
    requires n <= |pids|
  {
    && rtt <= NO_RTT
    && (forall i :: 0 <= i < n ==> Eligible(rtts, origin, pids[i]) ==> rtt <= rtts[pids[i]])
    && (rtt == NO_RTT ==> best == 0)
    && (rtt < NO_RTT ==> exists i :: 0 <= i < n && FirstBest(pids, rtts, origin, i, best, rtt))
  }

  ghost predicate FirstBest(pids: seq<nat>, rtts: map<nat, nat>, origin: nat, i: nat, best: nat, rtt: nat)
    requires i < |pids|
  {
    && pids[i] == best && Eligible(rtts, origin, best) && rtts[best] == rtt
    && forall j :: 0 <= j < i ==> Eligible(rtts, origin, pids[j]) ==> rtt < rtts[pids[j]]
  }

  ghost predicate SomeEligible(pids: seq<nat>, rtts: map<nat, nat>, origin: nat) {
    exists i :: 0 <= i < |pids| && Eligible(rtts, origin, pids[i])
  }

  /** What is found is another path, and none of the others is nearer; or all others are out of reach. */
  lemma BestIsNearest(pids: seq<nat>, rtts: map<nat, nat>, origin: nat, best: nat, rtt: nat, pid: nat)
    requires AllRated(pids, rtts) && BestSoFar(pids, rtts, origin, |pids|, best, rtt)
    requires pid in pids && pid != origin
    ensures if best in pids && best != origin && rtts[best] < 0xFFFF_FFFF then rtts[best] <= rtts[pid]
            else best == 0 && rtts[pid] >= 0xFFFF_FFFF
  {
  }

  class ScheduleV1 {
    var pids: seq<nat>

    ghost predicate Valid()
      reads this
    {
      Distinct(pids)
    }

    constructor ()
      ensures Valid() && pids == []
    {
      pids := [];
    }

    method RegisterPath(pid: nat)
      requires Valid()
      modifies this
      ensures Valid() && pids == if pid in old(pids) then old(pids) else old(pids) + [pid]
    {
      var i := 0;
      while i < |pids|
        invariant i <= |pids| && pid !in pids[..i]
      {
        if pids[i] == pid {
          return;
        }
        i := i + 1;
      }
      pids := pids + [pid];
    }

    method UnregisterPath(pid: nat)
      requires Valid()
      modifies this
      ensures Valid() && pid !in pids
      ensures forall p :: p != pid ==> (p in pids <==> p in old(pids))
    {
      var i := 0;
      while i < |pids|
        invariant i <= |pids| && pids == old(pids) && pid !in pids[..i]
      {
        if pids[i] == pid {
          assert pids == pids[..i] + [pid] + pids[i + 1..];
          pids := pids[..i] + pids[i + 1..];
          return;
        }
        i := i + 1;
      }
    }

    /** The path a lost packet is sent on again. */
    method RetransTarget(origin: nat, rtts: map<nat, nat>) returns (pid: nat)
      requires Valid() && AllRated(pids, rtts)
      ensures |pids| == 1 ==> pid == origin
      ensures |pids| != 1 ==> exists rtt :: BestSoFar(pids, rtts, origin, |pids|, pid, rtt)
      ensures |pids| != 1 ==>
                if SomeEligible(pids, rtts, origin) then pid in pids && Eligible(rtts, origin, pid) else pid == 0
    {
      if |pids| == 1 {
        pid := origin;
      } else {
        var minRtt: nat := NO_RTT;
        pid := 0;
        var i := 0;
        while i < |pids|
          invariant i <= |pids| && BestSoFar(pids, rtts, origin, i, pid, minRtt)
        {
          var pathId := pids[i];
          if pathId != origin {
            var rtt := rtts[pathId];
            if rtt < minRtt {
              minRtt, pid := rtt, pathId;
              assert FirstBest(pids, rtts, origin, i, pid, minRtt);
            }
          }
          i := i + 1;
        }
      }
    }
  }

  // ---- the sender ----

  /** The packet that carries piece i of a frame. */
  function PieceOf(fid: nat, ftype: int, pieces: seq<seq<Byte>>, now: nat, id: nat, i: nat): VideoPacket
    requires i < |pieces|
  {
    VideoPacket(id, fid, i, |pieces|, ftype, now, pieces[i])
  }

  function NewPackets(fid: nat, ftype: int, pieces: seq<seq<Byte>>, now: nat, first: nat, n: nat): map<nat, VideoPacket>
    requires n <= |pieces|
  {
    if n == 0 then map[]
    else
      var id := first + n - 1;
      NewPackets(fid, ftype, pieces, now, first, n - 1)[id := PieceOf(fid, ftype, pieces, now, id, n - 1)]
  }

  function NewLengths(pieces: seq<seq<Byte>>, first: nat, n: nat): map<nat, nat>
    requires n <= |pieces|
  {
    if n == 0 then map[] else NewLengths(pieces, first, n - 1)[first + n - 1 := |pieces[n - 1]|]
  }

  lemma {:induction false} NewPacketsAt(fid: nat, ftype: int, pieces: seq<seq<Byte>>, now: nat, first: nat, n: nat,
                                        id: nat)
    requires n <= |pieces|
    ensures id in NewPackets(fid, ftype, pieces, now, first, n) <==> first <= id < first + n
    ensures id in NewLengths(pieces, first, n) <==> first <= id < first + n
    ensures first <= id < first + n ==>
              NewPackets(fid, ftype, pieces, now, first, n)[id] == PieceOf(fid, ftype, pieces, now, id, id - first)
  {
    if n > 0 {
      NewPacketsAt(fid, ftype, pieces, now, first, n - 1, id);
    }
  }

  ghost predicate AmongPackets(p: VideoPacket, buf: map<nat, VideoPacket>) {
    exists id :: id in buf && buf[id] == p
  }

  ghost predicate AtIndex(p: VideoPacket, buf: map<nat, VideoPacket>, i: nat) {
    p.index == i && AmongPackets(p, buf)
  }

  function DataOf(ps: seq<VideoPacket>): seq<seq<Byte>> {
    seq(|ps|, i requires 0 <= i < |ps| => ps[i].data)
  }

  lemma PacketAtIndex(fid: nat, ftype: int, data: seq<Byte>, now: nat, first: nat, p: VideoPacket, i: nat)
    requires AtIndex(p, NewPackets(fid, ftype, Cut(data), now, first, |Cut(data)|), i)
    ensures i < |Cut(data)| && p.data == Cut(data)[i] && p.total == |Cut(data)|
    ensures p.fid == fid && p.ftype == ftype && p.generateTs == now && p.id == first + i
  {
    var buf := NewPackets(fid, ftype, Cut(data), now, first, |Cut(data)|);
    var id :| id in buf && buf[id] == p;
    NewPacketsAt(fid, ftype, Cut(data), now, first, |Cut(data)|, id);
  }

  /** Put at their indices, as many packets of a frame as each of them says there are join to the frame. */
  lemma IndexedPacketsJoin(fid: nat, ftype: int, data: seq<Byte>, now: nat, first: nat, ps: seq<VideoPacket>)
    requires ps != [] && |ps| == ps[0].total
    requires forall i :: 0 <= i < |ps| ==>
               AtIndex(ps[i], NewPackets(fid, ftype, Cut(data), now, first, |Cut(data)|), i)
    ensures Join(DataOf(ps)) == data
  {
    var buf := NewPackets(fid, ftype, Cut(data), now, first, |Cut(data)|);
    forall i | 0 <= i < |ps| ensures i < |Cut(data)| && ps[i].data == Cut(data)[i] && ps[i].total == |Cut(data)| {
      assert AtIndex(ps[i], buf, i);
      PacketAtIndex(fid, ftype, data, now, first, ps[i], i);
    }
    assert DataOf(ps) == Cut(data);
    JoinCut(data);
  }

  /** What the scheduler is told adds up to the frame. */
  lemma {:induction false} NewLengthsSum(pieces: seq<seq<Byte>>, first: nat, n: nat)
    requires n <= |pieces|
    ensures Sum(NewLengths(pieces, first, n)) == |Join(pieces[..n])|
  {
    if n > 0 {
      NewLengthsSum(pieces, first, n - 1);
      NewPacketsAt(0, 0, pieces, 0, first, n - 1, first + n - 1);
      SumInsert(NewLengths(pieces, first, n - 1), first + n - 1, |pieces[n - 1]|);
      JoinPrefix(pieces, n - 1);
    }
  }

  lemma LengthsAddUp(data: seq<Byte>, first: nat)
    ensures Sum(NewLengths(Cut(data), first, |Cut(data)|)) == |data|
  {
    var pieces := Cut(data);
    NewLengthsSum(pieces, first, |pieces|);
    assert pieces[..|pieces|] == pieces;
    JoinCut(data);
  }
}
