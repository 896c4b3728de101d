/** What the books of a sender say about the packets it has sent, independently of
    the sender's fields: cumulative bytes, snapshots and the window they span. */
module SendLedger {
  import opened Sampler

  datatype SentPacket = SentPacket(number: nat, time: nat, bytes: nat)

  /** The bytes of the first i packets. */
  ghost function Cum(log: seq<SentPacket>, i: nat): nat
    requires i <= |log|
  {
    if i == 0 then 0 else Cum(log, i - 1) + log[i - 1].bytes
  }

  ghost function Total(log: seq<SentPacket>): nat {
    Cum(log, |log|)
  }

  lemma {:induction false} CumMonotone(log: seq<SentPacket>, i: nat, j: nat)
    requires i <= j <= |log|
    ensures Cum(log, i) <= Cum(log, j)
    decreases j
  {
    if i < j {
      CumMonotone(log, i, j - 1);
    }
  }

  /** A packet between i and j is part of the bytes between them. */
  lemma CumContains(log: seq<SentPacket>, i: nat, q: nat, j: nat)
    requires i <= q < j <= |log|
    ensures Cum(log, i) + log[q].bytes <= Cum(log, j)
  {
    CumMonotone(log, i, q);
    CumMonotone(log, q + 1, j);
  }

  lemma {:induction false} CumPrefix(log: seq<SentPacket>, p: SentPacket, i: nat)
    requires i <= |log|
    ensures Cum(log + [p], i) == Cum(log, i)
  {
    if i > 0 {
      CumPrefix(log, p, i - 1);
    }
  }

  lemma {:induction false} CumSuffix(log: seq<SentPacket>, first: nat, i: nat)
    requires first <= i <= |log|
    ensures Cum(log[first..], i - first) == Cum(log, i) - Cum(log, first)
    decreases i
  {
    if i > first {
      CumSuffix(log, first, i - 1);
    }
  }

  /** Packet numbers rise, and the clock does not run backwards. */
  ghost predicate Ascending(log: seq<SentPacket>) {
    forall i, j :: 0 <= i < j < |log| ==> log[i].number < log[j].number && log[i].time <= log[j].time
  }

  /** The packets from `first` on are those above `ack`. */
  ghost predicate FirstOpen(log: seq<SentPacket>, first: nat, ack: nat) {
    && first <= |log|
    && (forall i :: 0 <= i < first ==> log[i].number <= ack)
    && (forall i :: first <= i < |log| ==> log[i].number > ack)
  }

  /** The ledger's view of a snapshot: what was open when the packet left, and how
      far the reference point reaches - past the packet acknowledged last, or past
      the packet that restarted an idle connection. */
  datatype Snap = Snap(first: nat, refEnd: nat, restart: bool)

  /** When packets were acknowledged, by their places in the log. */
  type Acks = map<nat, nat>

  /** The bytes of those of the first i packets that were acknowledged. */
  ghost function AckedBytes(log: seq<SentPacket>, acks: Acks, i: nat): nat
    requires i <= |log|
  {
    if i == 0 then 0 else AckedBytes(log, acks, i - 1) + if i - 1 in acks then log[i - 1].bytes else 0
  }

  ghost predicate AckedBefore(acks: Acks, first: nat) {
    forall k :: k in acks ==> k < first
  }

  lemma {:induction false} AckedAtMost(log: seq<SentPacket>, acks: Acks, i: nat, j: nat)
    requires i <= j <= |log|
    ensures 0 <= AckedBytes(log, acks, j) - AckedBytes(log, acks, i) <= Cum(log, j) - Cum(log, i)
    decreases j
  {
    if i < j {
      AckedAtMost(log, acks, i, j - 1);
    }
  }

  lemma {:induction false} AckedPrefix(log: seq<SentPacket>, p: SentPacket, acks: Acks, i: nat)
    requires i <= |log|
    ensures AckedBytes(log + [p], acks, i) == AckedBytes(log, acks, i)
  {
    if i > 0 {
      AckedPrefix(log, p, acks, i - 1);
    }
  }

  /** Beyond the packets acknowledged nothing is added. */
  lemma {:induction false} NoneAcked(log: seq<SentPacket>, acks: Acks, first: nat, i: nat)
    requires AckedBefore(acks, first) && first <= i <= |log|
    ensures AckedBytes(log, acks, i) == AckedBytes(log, acks, first)
    decreases i
  {
    if i > first {
      NoneAcked(log, acks, first, i - 1);
    }
  }

  lemma {:induction false} AckedEarlier(log: seq<SentPacket>, acks: Acks, k: nat, time: nat, i: nat)
    requires i <= k < |log|
    ensures AckedBytes(log, acks[k := time], i) == AckedBytes(log, acks, i)
  {
    if i > 0 {
      AckedEarlier(log, acks, k, time, i - 1);
    }
  }

  ghost function RestartBytes(log: seq<SentPacket>, snap: Snap): nat {
    if snap.restart && 0 < snap.refEnd <= |log| then log[snap.refEnd - 1].bytes else 0
  }

  /** Up to the restart packet, the reference lies in what had been settled. */
  ghost predicate RefSettled(log: seq<SentPacket>, snap: Snap) {
    && snap.first <= |log| && snap.refEnd <= |log|
    && Cum(log, snap.refEnd) <= Cum(log, snap.first) + RestartBytes(log, snap)
  }

  /** The reference packet was acknowledged, unless it restarted the connection. */
  ghost predicate RefKnown(log: seq<SentPacket>, acks: Acks, snap: Snap) {
    RefSettled(log, snap) && (snap.refEnd > 0 && !snap.restart ==> snap.refEnd - 1 in acks)
  }

  /** When the reference packet was sent. */
  ghost function RefSent(log: seq<SentPacket>, snap: Snap): nat
    requires snap.refEnd <= |log|
  {
    if snap.refEnd == 0 then 0 else log[snap.refEnd - 1].time
  }

  /** When it was acknowledged, or sent, if it restarted the connection. */
  ghost function RefAcked(log: seq<SentPacket>, acks: Acks, snap: Snap): nat
    requires RefKnown(log, acks, snap)
  {
    if snap.refEnd == 0 then 0
    else if snap.restart then log[snap.refEnd - 1].time
    else acks[snap.refEnd - 1]
  }

  /** The sampler's record of the i-th packet agrees with the ledger. */
  ghost predicate Recorded(state: PacketState, log: seq<SentPacket>, acks: Acks, i: nat, snap: Snap)
    requires i < |log|
  {
    && state.size == log[i].bytes && state.sentTime == log[i].time
    && RefKnown(log, acks, snap)
    && state.totalBytesSent == Cum(log, i + 1)
    && state.totalBytesSentAtLastAckedPacket == Cum(log, snap.refEnd)
    && state.lastAckedPacketSentTime == RefSent(log, snap)
    && state.lastAckedPacketAckTime == RefAcked(log, acks, snap)
    && state.totalBytesAckedAtTheLastAckedPacket == AckedBytes(log, acks, snap.first)
  }

  ghost predicate HasNumber(log: seq<SentPacket>, first: nat, n: nat) {
    exists i :: first <= i < |log| && log[i].number == n
  }

  ghost predicate OnBooks(log: seq<SentPacket>, snaps: seq<Snap>, acks: Acks, first: nat, infos: map<nat, PacketState>,
                          i: nat)
    requires i < |log| == |snaps|
  {
    && log[i].number in infos
    && snaps[i].first <= first
    && Recorded(infos[log[i].number], log, acks, i, snaps[i])
  }

  ghost predicate Books(log: seq<SentPacket>, snaps: seq<Snap>, acks: Acks, first: nat, infos: map<nat, PacketState>) {
    && |snaps| == |log| && first <= |log| && AckedBefore(acks, first)
    && (forall n :: n in infos ==> HasNumber(log, first, n))
    && (forall i :: first <= i < |log| ==> OnBooks(log, snaps, acks, first, infos, i))
  }

  /** The window bound: when the i-th packet is acknowledged, the bytes acknowledged
      since its snapshot fit into the bytes sent since the snapshot's reference, plus
      the packet that restarted the connection if that is the reference. */
  ghost predicate WindowBound(state: PacketState, acked: nat, restartBytes: nat) {
    && state.totalBytesAckedAtTheLastAckedPacket <= acked
    && state.totalBytesSentAtLastAckedPacket <= state.totalBytesSent + restartBytes
    && acked - state.totalBytesAckedAtTheLastAckedPacket
       <= state.totalBytesSent - state.totalBytesSentAtLastAckedPacket + restartBytes
  }

  lemma AckedFitsInSent(log: seq<SentPacket>, snaps: seq<Snap>, acks: Acks, first: nat, infos: map<nat, PacketState>,
                        i: nat)
    requires Books(log, snaps, acks, first, infos) && first <= i < |log|
    ensures OnBooks(log, snaps, acks, first, infos, i)
    ensures WindowBound(infos[log[i].number], AckedBytes(log, acks, first) + log[i].bytes, RestartBytes(log, snaps[i]))
  {
    assert OnBooks(log, snaps, acks, first, infos, i);
    AckedAtMost(log, acks, snaps[i].first, first);
    CumContains(log, first, i, i + 1);
  }

  lemma RefKnownLater(log: seq<SentPacket>, p: SentPacket, acks: Acks, snap: Snap)
    requires RefKnown(log, acks, snap)
    ensures RefKnown(log + [p], acks, snap)
    ensures RefSent(log + [p], snap) == RefSent(log, snap)
    ensures RefAcked(log + [p], acks, snap) == RefAcked(log, acks, snap)
  {
    CumPrefix(log, p, snap.first);
    CumPrefix(log, p, snap.refEnd);
  }

  lemma SendKeepsOne(log: seq<SentPacket>, p: SentPacket, acks: Acks, state: PacketState, snap: Snap, i: nat)
    requires i < |log| && Recorded(state, log, acks, i, snap)
    ensures Recorded(state, log + [p], acks, i, snap)
  {
    RefKnownLater(log, p, acks, snap);
    CumPrefix(log, p, snap.refEnd);
    CumPrefix(log, p, i + 1);
    AckedPrefix(log, p, acks, snap.first);
  }

  /** Sending puts one more packet on the books. */
  lemma SendKeepsBooks(log: seq<SentPacket>, snaps: seq<Snap>, acks: Acks, first: nat, infos: map<nat, PacketState>,
                       p: SentPacket, state: PacketState, snap: Snap)
    requires Books(log, snaps, acks, first, infos)
    requires forall i :: 0 <= i < |log| ==> log[i].number < p.number
    requires snap.first == first && Recorded(state, log + [p], acks, |log|, snap)
    ensures Books(log + [p], snaps + [snap], acks, first, infos[p.number := state])
  {
    var log', snaps', infos' := log + [p], snaps + [snap], infos[p.number := state];
    forall n | n in infos'
      ensures HasNumber(log', first, n)
    {
      if n == p.number {
        assert log'[|log|].number == n;
      } else {
        assert HasNumber(log, first, n);
        var i :| first <= i < |log| && log[i].number == n;
        assert log'[i].number == n;
      }
    }
    forall i | first <= i < |log'|
      ensures OnBooks(log', snaps', acks, first, infos', i)
    {
      if i < |log| {
        assert OnBooks(log, snaps, acks, first, infos, i);
        SendKeepsOne(log, p, acks, infos[log[i].number], snaps[i], i);
      }
    }
  }

  /** Exactly the packets from `next` on stay on the books. */
  ghost predicate Remains(left: map<nat, PacketState>, infos: map<nat, PacketState>, log: seq<SentPacket>, next: nat) {
    && (forall n :: n in left <==> n in infos && HasNumber(log, next, n))
    && (forall n :: n in left ==> left[n] == infos[n])
  }

  /** Packets up to the acknowledged one leave the books. */
  lemma LeaveBooks(log: seq<SentPacket>, snaps: seq<Snap>, acks: Acks, first: nat, next: nat,
                   infos: map<nat, PacketState>, left: map<nat, PacketState>)
    requires Books(log, snaps, acks, first, infos) && first <= next <= |log|
    requires Remains(left, infos, log, next)
    ensures Books(log, snaps, acks, next, left)
    ensures AckedBytes(log, acks, next) == AckedBytes(log, acks, first)
  {
    NoneAcked(log, acks, first, next);
    forall i | next <= i < |log|
      ensures OnBooks(log, snaps, acks, next, left, i)
    {
      assert HasNumber(log, next, log[i].number);
      assert OnBooks(log, snaps, acks, first, infos, i);
    }
  }

  lemma AckKeepsOne(state: PacketState, log: seq<SentPacket>, acks: Acks, i: nat, snap: Snap, k: nat, time: nat)
    requires i < |log| && Recorded(state, log, acks, i, snap) && snap.first <= k < |log| && AckedBefore(acks, k)
    ensures Recorded(state, log, acks[k := time], i, snap)
  {
    AckedEarlier(log, acks, k, time, snap.first);
  }

  /** Of the packets that leave, the last was acknowledged; the bytes acknowledged grow by its size. */
  lemma AckKeepsBooks(log: seq<SentPacket>, snaps: seq<Snap>, acks: Acks, first: nat, next: nat, time: nat,
                      infos: map<nat, PacketState>, left: map<nat, PacketState>)
    requires Books(log, snaps, acks, first, infos) && first < next <= |log|
    requires Remains(left, infos, log, next)
    ensures Books(log, snaps, acks[next - 1 := time], next, left)
    ensures AckedBytes(log, acks[next - 1 := time], next) == AckedBytes(log, acks, first) + log[next - 1].bytes
  {
    var acks' := acks[next - 1 := time];
    NoneAcked(log, acks, first, next - 1);
    AckedEarlier(log, acks, next - 1, time, next - 1);
    forall i | next <= i < |log|
      ensures OnBooks(log, snaps, acks', next, left, i)
    {
      assert HasNumber(log, next, log[i].number);
      assert OnBooks(log, snaps, acks, first, infos, i);
      AckKeepsOne(infos[log[i].number], log, acks, i, snaps[i], next - 1, time);
    }
  }

  // ---- the sample, as the ledger has it ----

  /** The bytes acknowledged from the snapshot of the i-th packet up to its own acknowledgement. */
  ghost function AckedSince(log: seq<SentPacket>, acks: Acks, snap: Snap, i: nat): int
    requires snap.first <= |log| && i < |log|
  {
    AckedBytes(log, acks, i + 1) - AckedBytes(log, acks, snap.first)
  }

  /** `rate` sends no more than was acknowledged since the reference packet was, and - when the packet left later than
      the reference packet - no more than was sent since. */
  ghost predicate UnderLedger(rate: nat, log: seq<SentPacket>, acks: Acks, snap: Snap, i: nat, time: nat)
    requires i < |log| && RefKnown(log, acks, snap)
  {
    && rate * (time - RefAcked(log, acks, snap)) <= 8_000_000 * AckedSince(log, acks, snap, i)
    && (log[i].time > RefSent(log, snap) ==>
          rate * (log[i].time - RefSent(log, snap)) <= 8_000_000 * (Cum(log, i + 1) - Cum(log, snap.refEnd)))
  }

  /** The sample that the acknowledgement of the i-th packet gives: on a round update, if there is a reference packet
      and time has passed since its acknowledgement, the largest rate that the ledger allows, in bit/s. */
  ghost predicate LedgerSample(bw: Bandwidth, log: seq<SentPacket>, acks: Acks, snap: Snap, i: nat, time: nat,
                               newRound: bool)
    requires i < |log| && RefKnown(log, acks, snap)
  {
    if newRound && RefSent(log, snap) > 0 && time > RefAcked(log, acks, snap) then
      bw.Bps? && forall rate: nat :: rate <= bw.bps <==> UnderLedger(rate, log, acks, snap, i, time)
    else
      bw == Bps(0)
  }

  /** A sample over the sampler's record is the sample over the ledger. */
  lemma RecordedSample(bw: Bandwidth, state: PacketState, log: seq<SentPacket>, acks: Acks, snap: Snap, i: nat,
                       time: nat, newRound: bool, acked: nat)
    requires i < |log| && Recorded(state, log, acks, i, snap) && acked == AckedBytes(log, acks, i + 1)
    requires SnapshotBehind(state, state.totalBytesSent, acked)
    requires if Sampled(state, time, newRound) then IsSample(bw, state, time, acked) else bw == Bps(0)
    ensures LedgerSample(bw, log, acks, snap, i, time, newRound)
  {
    if Sampled(state, time, newRound) {
      forall rate: nat ensures UnderSlopes(rate, state, time, acked) <==> UnderLedger(rate, log, acks, snap, i, time) {
      }
    }
  }

  /** A round starts with an acknowledgement; `rtt` is what its packet measured. */
  datatype Round = Round(start: nat, rtt: nat)

  /** The packet that starts a round left after the round before it had started. */
  ghost predicate Causal(rounds: seq<Round>) {
    forall k :: 1 <= k < |rounds| ==> rounds[k - 1].start + rounds[k].rtt <= rounds[k].start
  }

  ghost function SumRtt(rounds: seq<Round>, j: nat, k: nat): nat
    requires j <= k < |rounds|
    decreases k
  {
    if j == k then 0 else SumRtt(rounds, j, k - 1) + rounds[k].rtt
  }

  /** Rounds do not overlap: any stretch of rounds lasts at least the round trips
      measured by the packets that started them. */
  lemma {:induction false} RoundsTakeTime(rounds: seq<Round>, j: nat, k: nat)
    requires Causal(rounds) && j <= k < |rounds|
    ensures rounds[k].start >= rounds[j].start + SumRtt(rounds, j, k)
    decreases k
  {
    if j < k {
      RoundsTakeTime(rounds, j, k - 1);
    }
  }
}
