/** The bandwidth sampler: running totals, a snapshot of them per packet sent, and
    a rate sample per acknowledged packet. Times are in microseconds. */
module Sampler {
  import opened Arithmetic
  import opened Ordered

  datatype PacketState = PacketState(
    sentTime: nat,
    size: nat,
    totalBytesSent: nat,
    totalBytesSentAtLastAckedPacket: nat,
    lastAckedPacketSentTime: nat,
    lastAckedPacketAckTime: nat,
    totalBytesAckedAtTheLastAckedPacket: nat)

  datatype Bandwidth = Bps(bps: nat) | Infinite

  function FromBytesAndTimeDelta(bytes: nat, delta: nat): Bandwidth
    requires delta > 0
  {
    Bps(bytes * 8_000_000 / delta)
  }

  function Min(a: Bandwidth, b: Bandwidth): Bandwidth {
    if a.Infinite? then b else if b.Infinite? then a else if a.bps > b.bps then b else a
  }

  /** `rate` sends no more than `bytes` in `delta`. */
  ghost predicate Under(rate: nat, bytes: nat, delta: nat) {
    rate * delta <= bytes * 8_000_000
  }

  lemma FromBytesIsLargest(bytes: nat, delta: nat, rate: nat)
    requires delta > 0
    ensures rate <= FromBytesAndTimeDelta(bytes, delta).bps <==> Under(rate, bytes, delta)
  {
    var a := bytes * 8_000_000;
    var q := a / delta;
    assert a == q * delta + a % delta;
    if rate <= q {
      TimesMonotone(q, rate, delta);
    } else {
      TimesMonotone(rate, q + 1, delta);
      assert (q + 1) * delta == q * delta + delta;
    }
  }

  ghost function Sizes(infos: map<nat, PacketState>): map<nat, nat> {
    map n | n in infos :: infos[n].size
  }

  lemma SizesInsert(infos: map<nat, PacketState>, n: nat, state: PacketState)
    requires n !in infos
    ensures Sum(Sizes(infos[n := state])) == Sum(Sizes(infos)) + state.size
  {
    assert Sizes(infos[n := state]) == Sizes(infos)[n := state.size];
    SumInsert(Sizes(infos), n, state.size);
  }

  lemma SizesRemove(infos: map<nat, PacketState>, n: nat)
    requires n in infos
    ensures Sum(Sizes(infos)) == Sum(Sizes(infos - {n})) + infos[n].size
  {
    assert Sizes(infos) - {n} == Sizes(infos - {n});
    SumRemove(Sizes(infos), n);
  }

  /** A snapshot never runs ahead of the totals. */
  ghost predicate SnapshotBehind(state: PacketState, sent: nat, acked: nat) {
    && state.totalBytesSentAtLastAckedPacket <= state.totalBytesSent <= sent
    && state.totalBytesAckedAtTheLastAckedPacket <= acked
  }

  /** A sample is taken on a round update, when something was acknowledged before the
      packet was sent, and time passed between that ack and this one. */
  predicate Sampled(state: PacketState, ackTime: nat, roundUpdate: bool) {
    roundUpdate && state.lastAckedPacketSentTime != 0 && ackTime > state.lastAckedPacketAckTime
  }

  /** `rate` is under the ack slope and, when the packet was sent later than the
      packet acknowledged before it, under the send slope. */
  ghost predicate UnderSlopes(rate: nat, state: PacketState, ackTime: nat, acked: nat)
    requires Sampled(state, ackTime, true) && SnapshotBehind(state, state.totalBytesSent, acked)
  {
    && Under(rate, acked - state.totalBytesAckedAtTheLastAckedPacket, ackTime - state.lastAckedPacketAckTime)
    && (state.sentTime > state.lastAckedPacketSentTime ==>
          Under(rate, state.totalBytesSent - state.totalBytesSentAtLastAckedPacket,
                state.sentTime - state.lastAckedPacketSentTime))
  }

  /** The sample is the largest rate under the slopes. */
  ghost predicate IsSample(bw: Bandwidth, state: PacketState, ackTime: nat, acked: nat)
    requires Sampled(state, ackTime, true) && SnapshotBehind(state, state.totalBytesSent, acked)
  {
    bw.Bps? && forall rate: nat :: rate <= bw.bps <==> UnderSlopes(rate, state, ackTime, acked)
  }

  /** The sampler's state as a value. */
  datatype Totals = Totals(
    sent: nat,
    acked: nat,
    sentAtLastAcked: nat,
    lastAckedSentTime: nat,
    lastAckedAckTime: nat,
    infos: map<nat, PacketState>)
  {
    /** A packet sent into an empty network restarts the reference point at itself. */
    ghost function Restarted(time: nat, bytes: nat, idle: bool): Totals {
      if idle then this.(sent := sent + bytes, sentAtLastAcked := sent + bytes,
                         lastAckedSentTime := time, lastAckedAckTime := time)
      else this.(sent := sent + bytes)
    }

    ghost function Snapshot(time: nat, bytes: nat): PacketState {
      PacketState(time, bytes, sent, sentAtLastAcked, lastAckedSentTime, lastAckedAckTime, acked)
    }

    /** A number that is on the books already keeps its first entry. */
    ghost function Send(time: nat, n: nat, bytes: nat, idle: bool): Totals {
      var now := Restarted(time, bytes, idle);
      if n in infos then now else now.(infos := infos[n := now.Snapshot(time, bytes)])
    }

    /** The bytes of a packet sent that no entry accounts for. */
    ghost function Unbooked(n: nat, bytes: nat): nat {
      if n in infos then bytes else 0
    }

    ghost function Ack(time: nat, n: nat): Totals {
      if n !in infos then this
      else
        Totals(sent, acked + infos[n].size, infos[n].totalBytesSent, infos[n].sentTime, time, infos - {n})
    }

    ghost function Lose(n: nat): Totals {
      this.(infos := infos - {n})
    }

    /** Every byte sent is acknowledged, given up or without an entry, or still outstanding. */
    ghost predicate Balanced(lost: nat) {
      && sentAtLastAcked <= sent
      && (forall n :: n in infos ==> SnapshotBehind(infos[n], sent, acked))
      && sent == acked + lost + Sum(Sizes(infos))
    }
  }

  lemma NothingBalanced(t: Totals)
    requires t.sent == t.acked == t.sentAtLastAcked == 0 && t.infos.Keys == {}
    ensures t.Balanced(0)
  {
    assert Sizes(t.infos) == map[];
  }

  lemma SendBalanced(t: Totals, lost: nat, time: nat, n: nat, bytes: nat, idle: bool)
    requires t.Balanced(lost)
    ensures t.Send(time, n, bytes, idle).Balanced(lost + t.Unbooked(n, bytes))
  {
    if n !in t.infos {
      SizesInsert(t.infos, n, t.Restarted(time, bytes, idle).Snapshot(time, bytes));
    }
  }

  lemma AckBalanced(t: Totals, lost: nat, time: nat, n: nat)
    requires t.Balanced(lost)
    ensures t.Ack(time, n).Balanced(lost)
  {
    if n in t.infos {
      SizesRemove(t.infos, n);
    }
  }

  lemma LoseBalanced(t: Totals, lost: nat, n: nat)
    requires t.Balanced(lost)
    ensures t.Lose(n).Balanced(lost + if n in t.infos then t.infos[n].size else 0)
  {
    if n in t.infos {
      SizesRemove(t.infos, n);
    } else {
      assert t.infos - {n} == t.infos;
    }
  }

  method NoPackets() returns (infos: map<nat, PacketState>)
    ensures infos.Keys == {}
  {
    infos := map[];
  }

  class MySampler {
    var totalBytesSent: nat
    var totalBytesAcked: nat
    var totalBytesSentAtLastAckedPacket: nat
    var lastAckedPacketSentTime: nat
    var lastAckedPacketAckTime: nat
    var packetInfos: map<nat, PacketState>
    ghost var bytesLost: nat

    ghost function View(): Totals
      reads this
    {
      Totals(totalBytesSent, totalBytesAcked, totalBytesSentAtLastAckedPacket,
             lastAckedPacketSentTime, lastAckedPacketAckTime, packetInfos)
    }

    ghost predicate Valid()
      reads this
    {
      View().Balanced(bytesLost)
    }

    constructor ()
      ensures Valid() && bytesLost == 0
      ensures totalBytesSent == totalBytesAcked == totalBytesSentAtLastAckedPacket == 0 && packetInfos == map[]
      ensures lastAckedPacketSentTime == lastAckedPacketAckTime == 0
    {
      totalBytesSent, totalBytesAcked, totalBytesSentAtLastAckedPacket := 0, 0, 0;
      lastAckedPacketSentTime, lastAckedPacketAckTime := 0, 0;
      var none := NoPackets();
      packetInfos := none;
      bytesLost := 0;
      new;
      NothingBalanced(View());
    }

    /** Counts the bytes; a packet sent into an empty network becomes the reference point. */
    method CountSent(sentTime: nat, bytes: nat, bytesInFlight: nat)
      modifies this`totalBytesSent, this`totalBytesSentAtLastAckedPacket,
               this`lastAckedPacketSentTime, this`lastAckedPacketAckTime
      ensures View() == old(View()).Restarted(sentTime, bytes, bytesInFlight == 0)
    {
      totalBytesSent := totalBytesSent + bytes;
      if bytesInFlight == 0 {
        lastAckedPacketAckTime := sentTime;
        totalBytesSentAtLastAckedPacket := totalBytesSent;
        lastAckedPacketSentTime := sentTime;
      }
    }

    method OnPacketSent(sentTime: nat, packetNumber: nat, bytes: nat, bytesInFlight: nat)
      requires Valid()
      modifies this
      ensures Valid() && bytesLost == old(bytesLost) + old(View()).Unbooked(packetNumber, bytes)
      ensures View() == old(View()).Send(sentTime, packetNumber, bytes, bytesInFlight == 0)
    {
      ghost var before := View();
      SendBalanced(before, bytesLost, sentTime, packetNumber, bytes, bytesInFlight == 0);
      CountSent(sentTime, bytes, bytesInFlight);
      if packetNumber !in packetInfos {
        var state := PacketState(sentTime, bytes, totalBytesSent, totalBytesSentAtLastAckedPacket,
                                 lastAckedPacketSentTime, lastAckedPacketAckTime, totalBytesAcked);
        packetInfos := packetInfos[packetNumber := state];
      }
      bytesLost := bytesLost + before.Unbooked(packetNumber, bytes);
      assert View() == before.Send(sentTime, packetNumber, bytes, bytesInFlight == 0);
    }

    /** Takes the packet off the books and samples the bandwidth over it. */
    method OnPacketAcknowledged(ackTime: nat, packetNumber: nat, roundUpdate: bool) returns (bw: Bandwidth)
      requires Valid()
      modifies this
      ensures Valid() && bytesLost == old(bytesLost)
      ensures View() == old(View()).Ack(ackTime, packetNumber)
      ensures packetNumber !in old(packetInfos) ==> bw == Bps(0)
      ensures packetNumber in old(packetInfos) ==>
                var state := old(packetInfos)[packetNumber];
                && SnapshotBehind(state, state.totalBytesSent, totalBytesAcked)
                && if Sampled(state, ackTime, roundUpdate) then IsSample(bw, state, ackTime, totalBytesAcked)
                   else bw == Bps(0)
    {
      bw := Bps(0);
      AckBalanced(View(), bytesLost, ackTime, packetNumber);
      if packetNumber in packetInfos {
        var state := packetInfos[packetNumber];
        bw := OnPacketAcknowledgedInner(ackTime, state, roundUpdate);
        packetInfos := packetInfos - {packetNumber};
      }
    }

    method OnPacketAcknowledgedInner(ackTime: nat, sentPacket: PacketState, roundUpdate: bool) returns (bw: Bandwidth)
      requires SnapshotBehind(sentPacket, sentPacket.totalBytesSent, totalBytesAcked)
      modifies this`totalBytesAcked, this`totalBytesSentAtLastAckedPacket,
               this`lastAckedPacketSentTime, this`lastAckedPacketAckTime
      ensures totalBytesAcked == old(totalBytesAcked) + sentPacket.size
      ensures totalBytesSentAtLastAckedPacket == sentPacket.totalBytesSent
      ensures lastAckedPacketSentTime == sentPacket.sentTime && lastAckedPacketAckTime == ackTime
      ensures if Sampled(sentPacket, ackTime, roundUpdate) then IsSample(bw, sentPacket, ackTime, totalBytesAcked)
              else bw == Bps(0)
    {
      totalBytesAcked := totalBytesAcked + sentPacket.size;
      totalBytesSentAtLastAckedPacket := sentPacket.totalBytesSent;
      lastAckedPacketSentTime := sentPacket.sentTime;
      lastAckedPacketAckTime := ackTime;
      bw := Bps(0);
      if !roundUpdate {
        return;
      }
      if sentPacket.lastAckedPacketSentTime == 0 {
        return;
      }
      var sendRate := Infinite;
      if sentPacket.sentTime > sentPacket.lastAckedPacketSentTime {
        sendRate := FromBytesAndTimeDelta(
          sentPacket.totalBytesSent - sentPacket.totalBytesSentAtLastAckedPacket,
          sentPacket.sentTime - sentPacket.lastAckedPacketSentTime);
      }
      if ackTime <= sentPacket.lastAckedPacketAckTime {
        return;
      }
      var ackRate := FromBytesAndTimeDelta(
        totalBytesAcked - sentPacket.totalBytesAckedAtTheLastAckedPacket,
        ackTime - sentPacket.lastAckedPacketAckTime);
      bw := Min(sendRate, ackRate);
      SlowerSlope(bw, sentPacket, ackTime, totalBytesAcked);
    }

    method OnPacketLost(packetNumber: nat)
      requires Valid()
      modifies this`packetInfos, this`bytesLost
      ensures Valid() && View() == old(View()).Lose(packetNumber)
      ensures bytesLost == old(bytesLost)
                + if packetNumber in old(packetInfos) then old(packetInfos)[packetNumber].size else 0
    {
      LoseBalanced(View(), bytesLost, packetNumber);
      if packetNumber in packetInfos {
        bytesLost := bytesLost + packetInfos[packetNumber].size;
      }
      packetInfos := packetInfos - {packetNumber};
    }
  }

  lemma SlowerSlope(bw: Bandwidth, state: PacketState, ackTime: nat, acked: nat)
    requires Sampled(state, ackTime, true) && SnapshotBehind(state, state.totalBytesSent, acked)
    requires bw == Min(
      if state.sentTime > state.lastAckedPacketSentTime then
        FromBytesAndTimeDelta(state.totalBytesSent - state.totalBytesSentAtLastAckedPacket,
                              state.sentTime - state.lastAckedPacketSentTime)
      else Infinite,
      FromBytesAndTimeDelta(acked - state.totalBytesAckedAtTheLastAckedPacket, ackTime - state.lastAckedPacketAckTime))
    ensures IsSample(bw, state, ackTime, acked)
  {
    forall rate: nat
      ensures rate <= bw.bps <==> UnderSlopes(rate, state, ackTime, acked)
    {
      FromBytesIsLargest(acked - state.totalBytesAckedAtTheLastAckedPacket,
                         ackTime - state.lastAckedPacketAckTime, rate);
      if state.sentTime > state.lastAckedPacketSentTime {
        FromBytesIsLargest(state.totalBytesSent - state.totalBytesSentAtLastAckedPacket,
                           state.sentTime - state.lastAckedPacketSentTime, rate);
      }
    }
  }
}
