/** One sending path: its two queues, its sequence numbers, and the losses it infers from acks. */
module PathSenderV1 {
  import opened Arithmetic
  import opened Bytes
  import opened Ordered

  const VIDEO_SEGMENT_HEADER_SIZE := 15
  const MAX_BUF_SIZE := 1400

  /** A packet of the first protocol version, as its sender keeps it. */
  datatype VideoPacket = VideoPacket(id: nat, fid: nat, index: nat, total: nat, ftype: int, generateTs: nat,
                                     data: seq<Byte>)

  function PayloadSize(p: VideoPacket): nat {
    VIDEO_SEGMENT_HEADER_SIZE + |p.data|
  }

  function QueueBytes(q: seq<VideoPacket>): nat {
    if q == [] then 0 else PayloadSize(q[0]) + QueueBytes(q[1..])
  }

  lemma {:induction false} QueueBytesPush(q: seq<VideoPacket>, p: VideoPacket)
    ensures QueueBytes(q + [p]) == QueueBytes(q) + PayloadSize(p)
  {
    if q == [] {
      assert QueueBytes([p]) == PayloadSize(p) + QueueBytes([]);
    } else {
      QueueBytesPush(q[1..], p);
      assert (q + [p])[1..] == q[1..] + [p];
    }
  }

  // ---- sequence numbers ----

  /** The entries above a key. */
  function Above(m: map<nat, nat>, k: nat): map<nat, nat> {
    map x | x in m && x > k :: m[x]
  }

  /** The map has exactly the keys strictly between two numbers. */
  ghost predicate Spans(m: map<nat, nat>, low: nat, high: nat) {
    forall k :: k in m <==> low < k < high
  }

  /** The numbers strictly between two numbers, in order. */
  function Between(low: nat, high: nat): (s: seq<nat>) {
    if high <= low + 1 then [] else Between(low, high - 1) + [high - 1]
  }

  lemma {:induction false} BetweenMembers(low: nat, high: nat, k: nat)
    ensures k in Between(low, high) <==> low < k < high
  {
    if high > low + 1 {
      BetweenMembers(low, high - 1, k);
    }
  }

  lemma {:induction false} BetweenIncreasing(low: nat, high: nat)
    ensures Increasing(Between(low, high))
    ensures forall i :: 0 <= i < |Between(low, high)| ==> low < Between(low, high)[i] < high
  {
    if high > low + 1 {
      BetweenIncreasing(low, high - 1);
    }
  }

  /** The packets behind the given sequence numbers; 0 marks padding and is passed over. */
  function PacketsOf(ids: map<nat, nat>, seqs: seq<nat>): seq<nat> {
    if seqs == [] then []
    else
      var k := seqs[|seqs| - 1];
      PacketsOf(ids, seqs[..|seqs| - 1]) + (if k in ids && ids[k] != 0 then [ids[k]] else [])
  }

  /** Exactly the packets that some of the numbers carried, padding aside. */
  lemma {:induction false} PacketsOfIff(ids: map<nat, nat>, seqs: seq<nat>, id: nat)
    ensures id in PacketsOf(ids, seqs) <==> id != 0 && exists k :: k in seqs && k in ids && ids[k] == id
    decreases |seqs|
  {
    if seqs != [] {
      var front, last := seqs[..|seqs| - 1], seqs[|seqs| - 1];
      PacketsOfIff(ids, front, id);
      assert seqs == front + [last];
    }
  }

  /** Every number up to `recv` is in exactly one of two rising lists, and nothing else is. */
  ghost predicate Classified(recv: nat, raised: seq<nat>, lost: seq<nat>) {
    && Increasing(raised) && Increasing(lost)
    && forall k: nat :: ClassifiedOne(recv, raised, lost, k)
  }

  ghost predicate ClassifiedOne(recv: nat, raised: seq<nat>, lost: seq<nat>, k: nat) {
    && (0 < k <= recv <==> k in raised || k in lost)
    && !(k in raised && k in lost)
  }

  lemma RaiseClassifies(recv: nat, raised: seq<nat>, lost: seq<nat>, seqNo: nat)
    requires Classified(recv, raised, lost) && recv < seqNo
    ensures Classified(seqNo, raised + [seqNo], lost + Between(recv, seqNo))
  {
    var raised', lost' := raised + [seqNo], lost + Between(recv, seqNo);
    BetweenIncreasing(recv, seqNo);
    forall i | 0 <= i < |lost| ensures lost[i] <= recv {
      assert ClassifiedOne(recv, raised, lost, lost[i]);
    }
    forall i | 0 <= i < |raised| ensures raised[i] <= recv {
      assert ClassifiedOne(recv, raised, lost, raised[i]);
    }
    forall k: nat ensures ClassifiedOne(seqNo, raised', lost', k) {
      assert ClassifiedOne(recv, raised, lost, k);
      BetweenMembers(recv, seqNo, k);
    }
  }

  class PathSender {
    var sendingQueue: seq<VideoPacket>
    var resendingQueue: seq<VideoPacket>
    var idDelayMap: map<nat, nat>
    var seqIdMap: map<nat, nat>
    var seqDelayMap: map<nat, nat>
    var seqNo: nat
    var recvSeq: nat
    var pendingBytes: int
    var curRtt: nat
    var aggregateDelay: nat
    /** The sequence numbers that raised `recvSeq`, and those reported lost. */
    ghost var raised: seq<nat>
    ghost var lost: seq<nat>
    /** The numbers up to here have left the maps. An ack may run ahead of what was sent. */
    ghost var settled: nat

    ghost predicate QueuesOk()
      reads this
    {
      && pendingBytes == QueueBytes(sendingQueue) + QueueBytes(resendingQueue)
      && (forall p :: p in sendingQueue || p in resendingQueue ==> PayloadSize(p) <= MAX_BUF_SIZE)
    }

    ghost predicate Valid()
      reads this
    {
      && QueuesOk()
      && settled <= recvSeq && settled < seqNo
      && Spans(seqIdMap, settled, seqNo)
      && Spans(seqDelayMap, settled, seqNo)
      && Classified(recvSeq, raised, lost)
    }

    /** While only sent numbers have been acked, both maps hold exactly the numbers between the highest acked one
        and the next. */
    ghost predicate Exact()
      reads this
    {
      && Valid() && settled == recvSeq && recvSeq < seqNo
      && Spans(seqIdMap, recvSeq, seqNo)
      && Spans(seqDelayMap, recvSeq, seqNo)
    }

    constructor ()
      ensures Exact() && seqNo == 1 && recvSeq == curRtt == aggregateDelay == 0
      ensures sendingQueue == [] && resendingQueue == []
    {
      sendingQueue, resendingQueue, idDelayMap, seqIdMap, seqDelayMap := [], [], map[], map[], map[];
      seqNo, recvSeq, pendingBytes, curRtt, aggregateDelay := 1, 0, 0, 0, 0;
      raised, lost, settled := [], [], 0;
    }

    method OnVideoPacket(packet: VideoPacket, isRetrans: bool, now: nat)
      requires Valid() && PayloadSize(packet) <= MAX_BUF_SIZE
      modifies this`sendingQueue, this`resendingQueue, this`pendingBytes, this`idDelayMap
      ensures Valid() && (old(Exact()) ==> Exact())
      ensures sendingQueue == if isRetrans then old(sendingQueue) else old(sendingQueue) + [packet]
      ensures resendingQueue == if isRetrans then old(resendingQueue) + [packet] else old(resendingQueue)
      ensures idDelayMap == if packet.id in old(idDelayMap) then old(idDelayMap) else old(idDelayMap)[packet.id := now]
    {
      QueueBytesPush(sendingQueue, packet);
      QueueBytesPush(resendingQueue, packet);
      if !isRetrans {
        sendingQueue := sendingQueue + [packet];
      } else {
        resendingQueue := resendingQueue + [packet];
      }
      pendingBytes := pendingBytes + PayloadSize(packet);
      if packet.id !in idDelayMap {
        idDelayMap := idDelayMap[packet.id := now];
      }
    }

    /** Notes a new sequence number, which carries packet `id`. */
    method Number(id: nat, now: nat) returns (n: nat)
      requires Valid()
      modifies this`seqNo, this`seqDelayMap, this`seqIdMap
      ensures Valid() && (old(Exact()) ==> Exact()) && n == old(seqNo) && seqNo == n + 1
      ensures seqIdMap == old(seqIdMap)[n := id] && seqDelayMap == old(seqDelayMap)[n := now]
    {
      n := seqNo;
      seqNo := seqNo + 1;
      seqDelayMap := seqDelayMap[n := now];
      seqIdMap := seqIdMap[n := id];
    }

    method SendPaddingPacket(now: nat) returns (n: nat)
      requires Valid()
      modifies this`seqNo, this`seqDelayMap, this`seqIdMap
      ensures Valid() && (old(Exact()) ==> Exact()) && n == old(seqNo) && seqNo == n + 1
      ensures seqIdMap == old(seqIdMap)[n := 0] && seqDelayMap == old(seqDelayMap)[n := now]
    {
      n := Number(0, now);
    }

    /** Sends the packet at the head of one queue. */
    method SendStreamPacket(isRetrans: bool, now: nat) returns (n: nat, packet: VideoPacket)
      requires Valid() && (if isRetrans then resendingQueue != [] else sendingQueue != [])
      modifies this`sendingQueue, this`resendingQueue, this`pendingBytes, this`seqNo, this`seqDelayMap, this`seqIdMap
      ensures Valid() && (old(Exact()) ==> Exact()) && n == old(seqNo) && seqNo == n + 1
      ensures isRetrans ==> sendingQueue == old(sendingQueue) && old(resendingQueue) == [packet] + resendingQueue
      ensures !isRetrans ==> resendingQueue == old(resendingQueue) && old(sendingQueue) == [packet] + sendingQueue
      ensures seqIdMap == old(seqIdMap)[n := packet.id] && seqDelayMap == old(seqDelayMap)[n := now]
    {
      if isRetrans {
        packet := resendingQueue[0];
        resendingQueue := resendingQueue[1..];
      } else {
        packet := sendingQueue[0];
        sendingQueue := sendingQueue[1..];
      }
      pendingBytes := pendingBytes - PayloadSize(packet);
      n := Number(packet.id, now);
    }

    /** A path sends what waits for a retransmission first, then what is new, and padding only when asked to. */
    method ProcessVideoPacket(canSend: bool, probe: bool, now: nat) returns (sent: seq<VideoPacket>)
      requires Valid()
      modifies this`sendingQueue, this`resendingQueue, this`pendingBytes, this`seqNo, this`seqDelayMap, this`seqIdMap
      ensures Valid() && (old(Exact()) ==> Exact())
      ensures sent + resendingQueue + sendingQueue == old(resendingQueue) + old(sendingQueue)
      ensures |sent| == if canSend && old(resendingQueue) + old(sendingQueue) != [] then 1 else 0
      ensures seqNo == old(seqNo) + if canSend && (sent != [] || probe) then 1 else 0
    {
      sent := [];
      if canSend {
        if resendingQueue != [] {
          var n, packet := SendStreamPacket(true, now);
          sent := [packet];
          return;
        }
        if sendingQueue != [] {
          var n, packet := SendStreamPacket(false, now);
          sent := [packet];
          return;
        }
        if probe {
          var n := SendPaddingPacket(now);
        }
      }
    }

    static method RemoveMapLe(m0: map<nat, nat>, k: nat) returns (m: map<nat, nat>)
      ensures m == Above(m0, k) && forall x :: x in m <==> x in m0 && x > k
    {
      m := m0;
      while m != map[]
        invariant Above(m, k) == Above(m0, k) && forall x :: x in m ==> x in m0 && m[x] == m0[x]
        invariant forall x :: x in m0 && x > k ==> x in m
        decreases |m|
      {
        var first := Least(m.Keys);
        if first <= k {
          assert |(m - {first}).Keys| < |m.Keys|;
          m := m - {first};
        } else {
          break;
        }
      }
    }

    method UpdateAggregateDelay(delay: nat)
      modifies this`aggregateDelay
      ensures if old(aggregateDelay) == 0 then aggregateDelay == delay
              else 100 * aggregateDelay <= 15 * old(aggregateDelay) + 85 * delay < 100 * (aggregateDelay + 1)
    {
      if aggregateDelay == 0 {
        aggregateDelay := delay;
      } else {
        aggregateDelay := (15 * aggregateDelay + 85 * delay) / 100;
      }
    }

    method UpdateRtt(n: nat, now: nat)
      modifies this`curRtt, this`aggregateDelay, this`idDelayMap, this`seqDelayMap
      ensures curRtt == if n in old(seqDelayMap) then (now - old(seqDelayMap)[n]) % TWO32 else old(curRtt)
      ensures seqDelayMap == Above(old(seqDelayMap), n)
      ensures idDelayMap == if n in seqIdMap && seqIdMap[n] in old(idDelayMap) then Above(old(idDelayMap), seqIdMap[n])
                            else old(idDelayMap)
    {
      if n in seqDelayMap {
        curRtt := (now - seqDelayMap[n]) % TWO32;
      }
      if n in seqIdMap {
        var packetId := seqIdMap[n];
        if packetId in idDelayMap {
          UpdateAggregateDelay((now - idDelayMap[packetId]) % TWO32);
          idDelayMap := RemoveMapLe(idDelayMap, packetId);
        }
      }
      seqDelayMap := RemoveMapLe(seqDelayMap, n);
    }

    /** Every number skipped by an ack that raises `recvSeq` is reported lost; `reported`
        lists the packets behind them that the sender is told of. */
    method DetectLoss(n: nat) returns (reported: seq<nat>)
      requires Classified(recvSeq, raised, lost)
      modifies this`recvSeq, this`seqIdMap, this`raised, this`lost
      ensures n <= old(recvSeq) ==> recvSeq == old(recvSeq) && raised == old(raised) && lost == old(lost)
      ensures n > old(recvSeq) ==> recvSeq == n && raised == old(raised) + [n]
      ensures n > old(recvSeq) ==> lost == old(lost) + Between(old(recvSeq), n)
      ensures reported == PacketsOf(old(seqIdMap), Between(old(recvSeq), n))
      ensures seqIdMap == Above(old(seqIdMap), n)
      ensures Classified(recvSeq, raised, lost)
    {
      reported := [];
      if n >= recvSeq + 1 {
        RaiseClassifies(recvSeq, raised, lost, n);
        var i := recvSeq + 1;
        while i < n
          modifies this`lost
          invariant recvSeq + 1 <= i <= n
          invariant lost == old(lost) + Between(recvSeq, i)
          invariant reported == PacketsOf(seqIdMap, Between(recvSeq, i))
        {
          lost := lost + [i];
          if i in seqIdMap {
            var packetId := seqIdMap[i];
            if packetId != 0 {
              reported := reported + [packetId];
            }
          }
          i := i + 1;
        }
        raised := raised + [n];
        recvSeq := n;
      }
      seqIdMap := RemoveMapLe(seqIdMap, n);
    }

    /** An ack, also one that runs ahead of what was sent. */
    method OnAck(n: nat, now: nat) returns (reported: seq<nat>)
      requires Valid()
      modifies this`curRtt, this`aggregateDelay, this`idDelayMap, this`seqDelayMap,
               this`recvSeq, this`seqIdMap, this`raised, this`lost, this`settled
      ensures Valid() && (old(Exact()) && n < seqNo ==> Exact())
      ensures settled == if old(settled) < n < seqNo then n else if n < seqNo then old(settled) else seqNo - 1
      ensures recvSeq == if n > old(recvSeq) then n else old(recvSeq)
      ensures lost == old(lost) + Between(old(recvSeq), n)
      ensures raised == if n > old(recvSeq) then old(raised) + [n] else old(raised)
      ensures reported == PacketsOf(old(seqIdMap), Between(old(recvSeq), n))
      ensures old(recvSeq) < n < seqNo ==> n in old(seqDelayMap)
      ensures curRtt == if n in old(seqDelayMap) then (now - old(seqDelayMap)[n]) % TWO32 else old(curRtt)
    {
      UpdateRtt(n, now);
      reported := DetectLoss(n);
      ghost var upTo := if n < seqNo then n else seqNo - 1;
      settled := if settled < upTo then upTo else settled;
    }
  }
}
