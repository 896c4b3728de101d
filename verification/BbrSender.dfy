/** The BBR-like sender, version 5: in-flight accounting over a bandwidth sampler,
    round counting, round-trip estimates, and the mode and gain machine. */
module BbrSender {
  import opened BbrControl
  import opened Ordered
  import opened Sampler
  import opened SendLedger

  // ---- the parts of the invariant ----

  ghost predicate LogBounds(log: seq<SentPacket>, lastSent: nat, clock: nat) {
    && Ascending(log)
    && forall i :: 0 <= i < |log| ==> log[i].number <= lastSent && log[i].time <= clock
  }

  /** Packets above the end of the round left after the round had started. */
  ghost predicate RoundOpen(rounds: seq<Round>, log: seq<SentPacket>, end: nat, clock: nat) {
    && Causal(rounds)
    && (rounds != [] ==>
          && rounds[|rounds| - 1].start <= clock
          && forall i :: 0 <= i < |log| && log[i].number > end ==> log[i].time >= rounds[|rounds| - 1].start)
  }

  lemma SendKeepsBounds(log: seq<SentPacket>, p: SentPacket, lastSent: nat, clock: nat,
                        rounds: seq<Round>, end: nat)
    requires LogBounds(log, lastSent, clock) && RoundOpen(rounds, log, end, clock)
    requires p.number > lastSent && p.time >= clock
    ensures LogBounds(log + [p], p.number, p.time) && RoundOpen(rounds, log + [p], end, p.time)
  {
  }

  lemma SendKeepsOpen(log: seq<SentPacket>, p: SentPacket, first: nat, ack: nat)
    requires FirstOpen(log, first, ack) && p.number > ack
    ensures FirstOpen(log + [p], first, ack)
    ensures (log + [p])[first..] == log[first..] + [p]
    ensures Total(log[first..] + [p]) == Total(log[first..]) + p.bytes
  {
    CumPrefix(log[first..], p, |log| - first);
  }

  lemma InFlight(log: seq<SentPacket>, first: nat)
    requires first <= |log|
    ensures Total(log[first..]) == Total(log) - Cum(log, first)
  {
    CumSuffix(log, first, |log|);
  }

  ghost predicate InFlightFrom(log: seq<SentPacket>, first: nat, sent: seq<SentPacket>, bytes: nat) {
    first <= |log| && sent == log[first..] && bytes == Total(sent)
  }

  lemma DropFirst(log: seq<SentPacket>, first: nat, sent: seq<SentPacket>, bytes: nat)
    requires InFlightFrom(log, first, sent, bytes) && sent != []
    ensures first < |log| && sent[0] == log[first] && bytes >= sent[0].bytes
    ensures InFlightFrom(log, first + 1, sent[1..], bytes - sent[0].bytes)
  {
    InFlight(log, first);
    InFlight(log, first + 1);
  }

  /** The snapshot taken when p leaves. */
  lemma SendSnapshot(log: seq<SentPacket>, acks: Acks, p: SentPacket, first: nat, ref: Snap, idle: bool)
      returns (snap: Snap)
    requires RefKnown(log, acks, ref) && ref.first == first && first <= |log|
    requires idle <==> Total(log[first..]) == 0
    ensures snap == if idle then Snap(first, |log| + 1, true) else ref
    ensures RefKnown(log + [p], acks, snap)
    ensures Cum(log + [p], |log| + 1) == Total(log) + p.bytes
    ensures AckedBytes(log + [p], acks, first) == AckedBytes(log, acks, first)
    ensures !idle ==>
              && Cum(log + [p], ref.refEnd) == Cum(log, ref.refEnd)
              && RefSent(log + [p], ref) == RefSent(log, ref)
              && RefAcked(log + [p], acks, ref) == RefAcked(log, acks, ref)
  {
    CumPrefix(log, p, |log|);
    CumPrefix(log, p, first);
    AckedPrefix(log, p, acks, first);
    RefKnownLater(log, p, acks, ref);
    CumPrefix(log, p, ref.refEnd);
    InFlight(log, first);
    snap := if idle then Snap(first, |log| + 1, true) else ref;
  }

  /** The true history of a connection: the packets sent and their snapshots, when packets were acknowledged, the
      reference point of the sampler, and the rounds so far. */
  datatype Ledger = Ledger(log: seq<SentPacket>, snaps: seq<Snap>, acks: Acks, ref: Snap, rounds: seq<Round>,
                           clock: nat)
  {
    ghost function Send(p: SentPacket, idle: bool): Ledger {
      var snap := if idle then Snap(ref.first, |log| + 1, true) else ref;
      Ledger(log + [p], snaps + [snap], acks, snap, rounds, p.time)
    }

    /** Whether n is the last of the packets before `next`, and was still open. */
    ghost predicate Found(n: nat, next: nat) {
      ref.first < next <= |log| && log[next - 1].number == n
    }

    ghost function Ack(time: nat, n: nat, next: nat, newRound: bool): Ledger
      requires next <= |log|
    {
      var rtt := if Found(n, next) && log[next - 1].time <= time then time - log[next - 1].time else 0;
      this.(acks := if Found(n, next) then acks[next - 1 := time] else acks,
            ref := if Found(n, next) then Snap(next, next, false) else ref.(first := next),
            rounds := if newRound then rounds + [Round(time, rtt)] else rounds,
            clock := time)
    }
  }

  /** The sender's own books. */
  datatype SenderBooks = SenderBooks(lastSent: nat, lastAck: nat, sent: seq<SentPacket>, inFlight: nat,
                                     roundEnd: nat, rounds: nat)
  {
    ghost function Send(p: SentPacket): SenderBooks {
      this.(lastSent := p.number, sent := sent + [p], inFlight := inFlight + p.bytes)
    }

    ghost function Ack(n: nat, left: seq<SentPacket>): SenderBooks {
      if n > roundEnd then SenderBooks(lastSent, n, left, Total(left), lastSent, rounds + 1)
      else this.(lastAck := n, sent := left, inFlight := Total(left))
    }
  }

  ghost predicate SenderAgrees(led: Ledger, b: SenderBooks) {
    match b
    case SenderBooks(lastSent, lastAck, sent, inFlight, roundEnd, rounds) =>
      && LogBounds(led.log, lastSent, led.clock)
      && lastAck <= lastSent
      && FirstOpen(led.log, led.ref.first, lastAck)
      && InFlightFrom(led.log, led.ref.first, sent, inFlight)
      && RoundOpen(led.rounds, led.log, roundEnd, led.clock)
      && roundEnd <= lastSent
      && rounds == |led.rounds|
  }

  ghost predicate SamplerAgrees(led: Ledger, t: Totals) {
    match led
    case Ledger(log, snaps, acks, ref, _, _) =>
      && t.sent == Total(log)
      && Books(log, snaps, acks, ref.first, t.infos)
      && t.acked == AckedBytes(log, acks, ref.first)
      && RefKnown(log, acks, ref)
      && t.sentAtLastAcked == Cum(log, ref.refEnd)
      && t.lastAckedSentTime == RefSent(log, ref)
      && t.lastAckedAckTime == RefAcked(log, acks, ref)
  }

  ghost predicate Agree(led: Ledger, b: SenderBooks, t: Totals) {
    SenderAgrees(led, b) && SamplerAgrees(led, t)
  }

  lemma NotYetKnown(led: Ledger, b: SenderBooks, t: Totals, n: nat)
    requires Agree(led, b, t) && n > b.lastSent
    ensures n !in t.infos
  {
    assert n in t.infos ==> HasNumber(led.log, led.ref.first, n);
  }

  lemma SendAgreesSender(led: Ledger, b: SenderBooks, p: SentPacket, idle: bool)
    requires SenderAgrees(led, b) && p.number > b.lastSent && p.time >= led.clock
    ensures SenderAgrees(led.Send(p, idle), b.Send(p))
  {
    SendKeepsBounds(led.log, p, b.lastSent, led.clock, led.rounds, b.roundEnd);
    SendKeepsOpen(led.log, p, led.ref.first, b.lastAck);
  }

  lemma SendAgreesSampler(led: Ledger, t: Totals, p: SentPacket, idle: bool)
    requires SamplerAgrees(led, t) && led.ref.first <= |led.log|
    requires forall i :: 0 <= i < |led.log| ==> led.log[i].number < p.number
    requires idle <==> Total(led.log[led.ref.first..]) == 0
    ensures SamplerAgrees(led.Send(p, idle), t.Send(p.time, p.number, p.bytes, idle))
  {
    var snap := SendSnapshot(led.log, led.acks, p, led.ref.first, led.ref, idle);
    var t' := t.Send(p.time, p.number, p.bytes, idle);
    assert p.number !in t.infos by {
      assert p.number in t.infos ==> HasNumber(led.log, led.ref.first, p.number);
    }
    assert Recorded(t'.infos[p.number], led.log + [p], led.acks, |led.log|, snap);
    SendKeepsBooks(led.log, led.snaps, led.acks, led.ref.first, t.infos, p, t'.infos[p.number], snap);
  }

  /** Sending keeps all books in agreement. */
  lemma SendAgrees(led: Ledger, b: SenderBooks, t: Totals, p: SentPacket, idle: bool)
    requires Agree(led, b, t) && p.number > b.lastSent && p.time >= led.clock
    requires idle <==> b.inFlight == 0
    ensures Agree(led.Send(p, idle), b.Send(p), t.Send(p.time, p.number, p.bytes, idle))
  {
    SendAgreesSender(led, b, p, idle);
    SendAgreesSampler(led, t, p, idle);
  }

  /** The sampler's map after the packets between the last ack and n were given up. */
  ghost predicate LostBetween(left: map<nat, PacketState>, infos: map<nat, PacketState>, ack: nat, n: nat) {
    && (forall m :: m in left <==> m in infos && !(ack < m < n))
    && forall m :: m in left ==> left[m] == infos[m]
  }

  ghost predicate SplitsAt(log: seq<SentPacket>, first: nat, next: nat, n: nat) {
    && first <= next <= |log|
    && (forall i :: first <= i < next ==> log[i].number <= n)
    && (forall i :: next <= i < |log| ==> log[i].number > n)
  }

  lemma AckAgreesSender(led: Ledger, b: SenderBooks, time: nat, n: nat, next: nat)
    requires SenderAgrees(led, b) && b.lastAck < n <= b.lastSent && time >= led.clock
    requires SplitsAt(led.log, led.ref.first, next, n)
    ensures SenderAgrees(led.Ack(time, n, next, n > b.roundEnd), b.Ack(n, led.log[next..]))
  {
    var after := led.Ack(time, n, next, n > b.roundEnd);
    assert after.ref.first == next && after.log == led.log && after.clock == time;
    AckKeepsOpen(led.log, led.ref.first, b.lastAck, next, n);
    if n > b.roundEnd {
      RoundIsCausal(led, b, time, n, next);
    } else {
      assert RoundOpen(after.rounds, led.log, b.roundEnd, time);
    }
  }

  lemma AckKeepsOpen(log: seq<SentPacket>, first: nat, ack: nat, next: nat, n: nat)
    requires FirstOpen(log, first, ack) && ack < n && SplitsAt(log, first, next, n)
    ensures FirstOpen(log, next, n)
  {
  }

  /** The packet of a new round left after the last round had started. */
  lemma RoundIsCausal(led: Ledger, b: SenderBooks, time: nat, n: nat, next: nat)
    requires RoundOpen(led.rounds, led.log, b.roundEnd, led.clock) && LogBounds(led.log, b.lastSent, led.clock)
    requires n > b.roundEnd && time >= led.clock && next <= |led.log|
    ensures RoundOpen(led.Ack(time, n, next, true).rounds, led.log, b.lastSent, time)
  {
    if led.rounds != [] && led.Found(n, next) {
      assert led.log[next - 1].time >= led.rounds[|led.rounds| - 1].start;
    }
  }

  lemma KnownIffOpen(log: seq<SentPacket>, snaps: seq<Snap>, acks: Acks, first: nat, infos: map<nat, PacketState>,
                     n: nat)
    requires Books(log, snaps, acks, first, infos)
    ensures n in infos <==> HasNumber(log, first, n)
  {
    if HasNumber(log, first, n) {
      var i :| first <= i < |log| && log[i].number == n;
      assert OnBooks(log, snaps, acks, first, infos, i);
    }
  }

  lemma NumbersRise(log: seq<SentPacket>, i: nat, j: nat)
    requires Ascending(log) && i <= j < |log|
    ensures i == j || log[i].number < log[j].number
  {
  }

  /** The acknowledged packet, if open, is the last of those that now leave. */
  lemma FoundIffOpen(log: seq<SentPacket>, first: nat, next: nat, n: nat)
    requires SplitsAt(log, first, next, n) && Ascending(log)
    ensures HasNumber(log, first, n) <==> first < next && log[next - 1].number == n
  {
    if HasNumber(log, first, n) {
      var i :| first <= i < |log| && log[i].number == n;
      assert i < next;
      NumbersRise(log, i, next - 1);
      assert log[next - 1].number <= n;
    }
  }

  lemma RemainingKnown(log: seq<SentPacket>, infos: map<nat, PacketState>, left: map<nat, PacketState>,
                       first: nat, ack: nat, n: nat, next: nat, m: nat)
    requires SplitsAt(log, first, next, n) && FirstOpen(log, first, ack)
    requires m in infos <==> HasNumber(log, first, m)
    requires LostBetween(left, infos, ack, n)
    ensures m in left && m != n <==> m in infos && HasNumber(log, next, m)
  {
    if m in infos {
      var i :| first <= i < |log| && log[i].number == m;
      if m > n {
        assert log[i].number == m && i >= next;
      }
    }
  }

  /** What stays on the sampler's books after an acknowledgement. */
  lemma AckLeaves(led: Ledger, t: Totals, left: map<nat, PacketState>, ack: nat, time: nat, n: nat, next: nat)
    requires Books(led.log, led.snaps, led.acks, led.ref.first, t.infos)
    requires SplitsAt(led.log, led.ref.first, next, n) && FirstOpen(led.log, led.ref.first, ack)
    requires LostBetween(left, t.infos, ack, n)
    ensures Remains(left - {n}, t.infos, led.log, next)
  {
    forall m
      ensures m in left - {n} <==> m in t.infos && HasNumber(led.log, next, m)
    {
      KnownIffOpen(led.log, led.snaps, led.acks, led.ref.first, t.infos, m);
      RemainingKnown(led.log, t.infos, left, led.ref.first, ack, n, next, m);
    }
  }

  /** An acknowledgement keeps the sampler's books in agreement, and what it
      acknowledges fits into the packet's window. */
  lemma AckAgreesSampler(led: Ledger, t: Totals, left: map<nat, PacketState>, ack: nat, time: nat, n: nat,
                         next: nat, round: bool)
    requires SamplerAgrees(led, t) && Ascending(led.log) && FirstOpen(led.log, led.ref.first, ack) && ack < n
    requires SplitsAt(led.log, led.ref.first, next, n) && LostBetween(left, t.infos, ack, n)
    ensures SamplerAgrees(led.Ack(time, n, next, round), t.(infos := left).Ack(time, n))
    ensures led.Found(n, next) <==> n in t.infos
    ensures n in t.infos ==>
              && Recorded(t.infos[n], led.log, led.Ack(time, n, next, round).acks, next - 1, led.snaps[next - 1])
              && WindowBound(t.infos[n], t.(infos := left).Ack(time, n).acked,
                             RestartBytes(led.log, led.snaps[next - 1]))
  {
    var first := led.ref.first;
    KnownIffOpen(led.log, led.snaps, led.acks, first, t.infos, n);
    FoundIffOpen(led.log, first, next, n);
    AckLeaves(led, t, left, ack, time, n, next);
    if led.Found(n, next) {
      AckFound(led, t, left, time, n, next);
      AfterFound(led, t, left, time, n, next, round);
    } else {
      assert left - {n} == left;
      AckNotFound(led, t, left, time, n, next, round);
    }
  }

  /** The packet numbered n, the one before `next`: its window bound, and its record. */
  ghost predicate AckFitsWindow(led: Ledger, acks: Acks, n: nat, next: nat, state: PacketState, acked: nat) {
    && 0 < next <= |led.log| && next <= |led.snaps| && led.log[next - 1].number == n
    && WindowBound(state, acked, RestartBytes(led.log, led.snaps[next - 1]))
    && Recorded(state, led.log, acks, next - 1, led.snaps[next - 1])
    && acked == AckedBytes(led.log, acks, next)
  }

  /** The ledger after packet n has been acknowledged, and the bytes acknowledged fitting its window. */
  ghost predicate Settled(led: Ledger, after: Ledger, infos: map<nat, PacketState>, acked: nat,
                          time: nat, n: nat, next: nat, newRound: bool)
  {
    && next <= |led.log|
    && after == led.Ack(time, n, next, newRound)
    && (led.Found(n, next) <==> n in infos)
    && (n in infos ==> AckFitsWindow(led, after.acks, n, next, infos[n], acked))
  }

  /** The sample of the acknowledgement: what the ledger gives for the packet, or nothing for one that is not open. */
  ghost predicate Sampling(bw: Bandwidth, led: Ledger, after: Ledger, time: nat, n: nat, next: nat, newRound: bool) {
    if led.Found(n, next) then
      && next <= |led.snaps| && RefKnown(led.log, after.acks, led.snaps[next - 1])
      && LedgerSample(bw, led.log, after.acks, led.snaps[next - 1], next - 1, time, newRound)
    else
      bw == Bps(0)
  }

  /** An acknowledgement keeps all books in agreement. */
  lemma AckAgrees(led: Ledger, b: SenderBooks, b': SenderBooks, t: Totals, left: map<nat, PacketState>, time: nat,
                  n: nat, next: nat)
    requires Agree(led, b, t) && b.lastAck < n <= b.lastSent && time >= led.clock
    requires SplitsAt(led.log, led.ref.first, next, n) && LostBetween(left, t.infos, b.lastAck, n)
    requires b' == b.Ack(n, led.log[next..])
    ensures var after := led.Ack(time, n, next, n > b.roundEnd);
            && Agree(after, b', t.(infos := left).Ack(time, n))
            && Settled(led, after, t.infos, t.(infos := left).Ack(time, n).acked, time, n, next, n > b.roundEnd)
  {
    AckAgreesSender(led, b, time, n, next);
    AckAgreesSampler(led, t, left, b.lastAck, time, n, next, n > b.roundEnd);
  }

  lemma AckFound(led: Ledger, t: Totals, left: map<nat, PacketState>, time: nat, n: nat, next: nat)
    requires SamplerAgrees(led, t) && Ascending(led.log) && led.Found(n, next)
    requires n in t.infos && Remains(left - {n}, t.infos, led.log, next)
    ensures t.infos[n].totalBytesSent == Cum(led.log, next)
    ensures t.infos[n].size == led.log[next - 1].bytes && t.infos[n].sentTime == led.log[next - 1].time
    ensures Books(led.log, led.snaps, led.acks[next - 1 := time], next, left - {n})
    ensures AckedBytes(led.log, led.acks[next - 1 := time], next) == t.acked + t.infos[n].size
    ensures Recorded(t.infos[n], led.log, led.acks[next - 1 := time], next - 1, led.snaps[next - 1])
    ensures WindowBound(t.infos[n], t.acked + t.infos[n].size, RestartBytes(led.log, led.snaps[next - 1]))
  {
    var first, state := led.ref.first, t.infos[n];
    assert OnBooks(led.log, led.snaps, led.acks, first, t.infos, next - 1);
    AckedFitsInSent(led.log, led.snaps, led.acks, first, t.infos, next - 1);
    AckKeepsOne(state, led.log, led.acks, next - 1, led.snaps[next - 1], next - 1, time);
    AckKeepsBooks(led.log, led.snaps, led.acks, first, next, time, t.infos, left - {n});
  }

  lemma AfterFound(led: Ledger, t: Totals, left: map<nat, PacketState>, time: nat, n: nat, next: nat, round: bool)
    requires led.Found(n, next) && n in left && left[n].totalBytesSent == Cum(led.log, next)
    requires left[n].sentTime == led.log[next - 1].time
    requires t.sent == Total(led.log)
    requires Books(led.log, led.snaps, led.acks[next - 1 := time], next, left - {n})
    requires AckedBytes(led.log, led.acks[next - 1 := time], next) == t.acked + left[n].size
    ensures SamplerAgrees(led.Ack(time, n, next, round), t.(infos := left).Ack(time, n))
  {
  }

  lemma AckNotFound(led: Ledger, t: Totals, left: map<nat, PacketState>, time: nat, n: nat, next: nat, round: bool)
    requires SamplerAgrees(led, t) && Ascending(led.log) && !led.Found(n, next) && led.ref.first <= next <= |led.log|
    requires n !in left && Remains(left, t.infos, led.log, next)
    ensures SamplerAgrees(led.Ack(time, n, next, round), t.(infos := left).Ack(time, n))
  {
    CumMonotone(led.log, led.ref.first, next);
    LeaveBooks(led.log, led.snaps, led.acks, led.ref.first, next, t.infos, left);
  }

  ghost predicate SizesMatch(log: seq<SentPacket>, first: nat, infos: map<nat, PacketState>) {
    && (forall n :: n in infos ==> HasNumber(log, first, n))
    && (forall i :: first <= i < |log| ==> log[i].number in infos && infos[log[i].number].size == log[i].bytes)
  }

  lemma {:induction false} OpenBytes(log: seq<SentPacket>, first: nat, infos: map<nat, PacketState>)
    requires Ascending(log) && first <= |log| && SizesMatch(log, first, infos)
    ensures Sum(Sizes(infos)) == Total(log) - Cum(log, first)
    decreases |log| - first
  {
    if first == |log| {
      assert infos == map[] by {
        assert forall n :: n in infos ==> HasNumber(log, first, n);
      }
      assert Sizes(infos) == map[];
    } else {
      var n := log[first].number;
      forall m | m in infos - {n}
        ensures HasNumber(log, first + 1, m)
      {
        assert HasNumber(log, first, m);
        var i :| first <= i < |log| && log[i].number == m;
        assert first + 1 <= i;
      }
      OpenBytes(log, first + 1, infos - {n});
      SizesRemove(infos, n);
    }
  }

  /** The two maps of a connection never drift apart: they hold the same packets with
      the same sizes, both add up to the bytes in flight, and every byte sent is
      acknowledged, given up or in flight. */
  lemma BooksBalance(led: Ledger, b: SenderBooks, t: Totals, lost: nat, n: nat)
    requires Agree(led, b, t) && t.Balanced(lost)
    ensures n in t.infos <==> HasNumber(b.sent, 0, n)
    ensures b.inFlight == Total(b.sent) == Sum(Sizes(t.infos))
    ensures t.sent == t.acked + lost + b.inFlight
  {
    var log, first := led.log, led.ref.first;
    BooksHoldSizes(log, led.snaps, led.acks, first, t.infos);
    OpenBytes(log, first, t.infos);
    InFlight(log, first);
    KnownIffOpen(log, led.snaps, led.acks, first, t.infos, n);
    OpenIffInSuffix(log, first, n);
  }

  lemma BooksHoldSizes(log: seq<SentPacket>, snaps: seq<Snap>, acks: Acks, first: nat, infos: map<nat, PacketState>)
    requires Books(log, snaps, acks, first, infos)
    ensures SizesMatch(log, first, infos)
  {
    forall i | first <= i < |log|
      ensures log[i].number in infos && infos[log[i].number].size == log[i].bytes
    {
      assert OnBooks(log, snaps, acks, first, infos, i);
    }
  }

  lemma OpenIffInSuffix(log: seq<SentPacket>, first: nat, n: nat)
    requires first <= |log|
    ensures HasNumber(log[first..], 0, n) <==> HasNumber(log, first, n)
  {
    var sent := log[first..];
    if HasNumber(log, first, n) {
      var i :| first <= i < |log| && log[i].number == n;
      assert sent[i - first].number == n;
    }
    if HasNumber(sent, 0, n) {
      var i :| 0 <= i < |sent| && sent[i].number == n;
      assert log[first + i].number == n;
    }
  }

  /** The packet found measures the time since it was sent; without one nothing changes. */
  ghost predicate RttTaken(led: Ledger, next: nat, c: Control, d: Control, now: nat, n: nat) {
    if led.Found(n, next) then now >= led.log[next - 1].time && Measured(c, d, now, n, now - led.log[next - 1].time)
    else d == c
  }

  /** The packet, numbered n, measures the time since it was sent. */
  ghost predicate MeasuredBy(p: SentPacket, c: Control, d: Control, now: nat, n: nat) {
    p.number == n && now >= p.time && Measured(c, d, now, n, now - p.time)
  }

  /** An open packet with this number measures the time since it was sent; without one nothing changes. */
  ghost predicate RttOf(log: seq<SentPacket>, first: nat, c: Control, d: Control, now: nat, n: nat) {
    if HasNumber(log, first, n) then exists i :: first <= i < |log| && MeasuredBy(log[i], c, d, now, n)
    else d == c
  }

  lemma RttOfLast(led: Ledger, next: nat, c: Control, d: Control, now: nat, n: nat)
    requires SplitsAt(led.log, led.ref.first, next, n) && Ascending(led.log)
    requires RttOf(led.log, led.ref.first, c, d, now, n)
    ensures RttTaken(led, next, c, d, now, n)
  {
    FoundIffOpen(led.log, led.ref.first, next, n);
    if led.Found(n, next) {
      var i :| led.ref.first <= i < |led.log| && MeasuredBy(led.log[i], c, d, now, n);
      NumbersRise(led.log, if i < next then i else next - 1, if i < next then next - 1 else i);
    }
  }

  lemma NewLedger() returns (led: Ledger)
    ensures led.log == [] && led.snaps == [] && led.acks == map[] && led.rounds == [] && led.clock == 0
    ensures led.ref.first == led.ref.refEnd == 0
  {
    led := Ledger([], [], map[], Snap(0, 0, false), [], 0);
  }

  lemma EmptyAgrees(led: Ledger, b: SenderBooks, t: Totals)
    requires led.log == [] && led.snaps == [] && led.acks == map[] && led.rounds == []
    requires led.ref.first == led.ref.refEnd == 0
    requires b.lastSent == b.lastAck == b.inFlight == b.roundEnd == b.rounds == 0 && b.sent == []
    requires t.sent == t.acked == t.sentAtLastAcked == t.lastAckedSentTime == t.lastAckedAckTime == 0
    requires t.infos == map[]
    ensures Agree(led, b, t)
  {
  }

  class MyBbrSenderV5 {
    var sampler: MySampler
    var lastSentPacket: nat
    var lastAckSeq: nat
    var sentPackets: seq<SentPacket>
    var bytesInFlight: nat
    var currentRoundTripEnd: nat
    var roundTripCount: nat

    ghost var ledger: Ledger

    /** The estimates, modes and gains. */
    var control: Control

    constructor ()
      ensures Accounts() && Modes() && fresh(sampler)
      ensures ledger.log == [] && ledger.rounds == [] && ledger.clock == 0
      ensures lastSentPacket == lastAckSeq == bytesInFlight == currentRoundTripEnd == roundTripCount == 0
      ensures sentPackets == [] && control == INITIAL
    {
      sampler := new MySampler();
      lastSentPacket, lastAckSeq, sentPackets, bytesInFlight := 0, 0, [], 0;
      currentRoundTripEnd, roundTripCount := 0, 0;
      ghost var led := NewLedger();
      ledger := led;
      control := INITIAL;
      new;
      EmptyAgrees(ledger, Own(), sampler.View());
    }

    ghost predicate Modes()
      reads this`control
    {
      Steady(control)
    }

    ghost function Own(): SenderBooks
      reads this`lastSentPacket, this`lastAckSeq, this`sentPackets, this`bytesInFlight,
            this`currentRoundTripEnd, this`roundTripCount
    {
      SenderBooks(lastSentPacket, lastAckSeq, sentPackets, bytesInFlight, currentRoundTripEnd, roundTripCount)
    }

    /** The sender's map of packets in flight and the sampler's map agree with the
        ledger, packet by packet and in total; the window and round invariants hold. */
    ghost predicate Accounts()
      reads this`lastSentPacket, this`lastAckSeq, this`sentPackets, this`bytesInFlight,
            this`currentRoundTripEnd, this`roundTripCount, this`ledger, this`sampler, sampler
    {
      sampler.Valid() && Agree(ledger, Own(), sampler.View())
    }

    method OnPacketSent(eventTime: nat, packetNumber: nat, bytes: nat)
      requires Accounts() && eventTime >= ledger.clock
      modifies this`lastSentPacket, this`sentPackets, this`bytesInFlight, this`ledger, sampler
      ensures Accounts()
      ensures if packetNumber <= old(lastSentPacket) then ledger == old(ledger) && Own() == old(Own())
              else
                && ledger == old(ledger).Send(SentPacket(packetNumber, eventTime, bytes), old(bytesInFlight) == 0)
                && Own() == old(Own()).Send(SentPacket(packetNumber, eventTime, bytes))
    {
      if packetNumber <= lastSentPacket {
        return;
      }
      ghost var p, idle := SentPacket(packetNumber, eventTime, bytes), bytesInFlight == 0;
      ghost var own, totals := Own(), sampler.View();
      NotYetKnown(ledger, own, totals, packetNumber);
      SendAgrees(ledger, own, totals, p, idle);
      ghost var ledger' := ledger.Send(p, idle);
      lastSentPacket := packetNumber;
      sampler.OnPacketSent(eventTime, packetNumber, bytes, bytesInFlight);
      bytesInFlight := bytesInFlight + bytes;
      sentPackets := sentPackets + [SentPacket(packetNumber, eventTime, bytes)];
      ledger := ledger';
      assert Own() == own.Send(p);
    }

    /** The packets between the last acknowledged one and n are given up. */
    method LoseBetween(n: nat)
      requires sampler.Valid() && lastAckSeq < n
      modifies sampler`packetInfos, sampler`bytesLost
      ensures sampler.Valid()
      ensures LostBetween(sampler.packetInfos, old(sampler.packetInfos), lastAckSeq, n)
    {
      var i := lastAckSeq + 1;
      while i < n
        invariant i <= n && sampler.Valid()
        invariant LostBetween(sampler.packetInfos, old(sampler.packetInfos), lastAckSeq, i)
      {
        sampler.OnPacketLost(i);
        i := i + 1;
      }
    }

    method FindSent(n: nat) returns (found: bool, sentTs: nat)
      ensures found <==> HasNumber(sentPackets, 0, n)
      ensures found ==>
                exists k :: 0 <= k < |sentPackets| && sentPackets[k].number == n && sentPackets[k].time == sentTs
    {
      found, sentTs := false, 0;
      for k := 0 to |sentPackets|
        invariant !found && forall j :: 0 <= j < k ==> sentPackets[j].number != n
      {
        if sentPackets[k].number == n {
          return true, sentPackets[k].time;
        }
      }
    }

    /** Drops the packets up to n from the map and from the bytes in flight. */
    method RemoveUpTo(n: nat, ghost log: seq<SentPacket>, ghost first: nat) returns (ghost next: nat)
      requires first <= |log| && Ascending(log) && InFlightFrom(log, first, sentPackets, bytesInFlight)
      modifies this`sentPackets, this`bytesInFlight
      ensures first <= next <= |log| && InFlightFrom(log, next, sentPackets, bytesInFlight)
      ensures forall i :: first <= i < next ==> log[i].number <= n
      ensures forall i :: next <= i < |log| ==> log[i].number > n
    {
      next := first;
      while sentPackets != []
        invariant first <= next <= |log| && InFlightFrom(log, next, sentPackets, bytesInFlight)
        invariant forall i :: first <= i < next ==> log[i].number <= n
        decreases |sentPackets|
      {
        var it := sentPackets[0];
        if it.number <= n {
          DropFirst(log, next, sentPackets, bytesInFlight);
          bytesInFlight := bytesInFlight - it.bytes;
          sentPackets := sentPackets[1..];
          next := next + 1;
        } else {
          break;
        }
      }
    }

    /** Round-trip estimates from one measured packet. */
    method UpdateRtt(now: nat, packetNumber: nat, rtt: nat)
      requires Modes()
      modifies this`control
      ensures Modes() && Measured(old(control), control, now, packetNumber, rtt)
    {
      NoteMinRtt(now, rtt);
      if control.mode.Decrease? {
        if control.lowRtt.Infinity? || rtt <= control.lowRtt.us {
          control := control.(lowRtt := Micros(rtt), lowRttAt := now);
        }
      }
      if control.mode.Increase? {
        if packetNumber > control.seqAtBackoff {
          if control.base.Infinity? || rtt < control.base.us {
            control := control.(base := Micros(rtt), smooth := rtt, baseAt := now);
          }
          SmoothRtt(rtt);
        }
      }
      MeasuredSteady(old(control), control, now, packetNumber, rtt);
    }

    /** A sample close to the minimum confirms it. */
    method NoteMinRtt(now: nat, rtt: nat)
      modifies this`control
      ensures MinNoted(old(control), control, now, rtt)
      ensures control == old(control).(minRtt := control.minRtt, minRttAt := control.minRttAt)
    {
      if control.minRtt == 0 {
        control := control.(minRtt := rtt, minRttAt := now);
      } else {
        if rtt < control.minRtt {
          control := control.(minRtt := rtt, minRttAt := now);
        }
        if rtt > control.minRtt && 8 * rtt <= 9 * control.minRtt {
          control := control.(minRttAt := now);
        }
      }
    }

    /** Smoothing is done in whole milliseconds. */
    method SmoothRtt(rtt: nat)
      modifies this`control
      ensures control == old(control).(smooth := SmoothedRtt(old(control.smooth), rtt))
    {
      if control.smooth == 0 {
        control := control.(smooth := rtt);
      } else {
        var oldMs := control.smooth / 1000;
        var newMs := rtt / 1000;
        var smoothMs := (5 * oldMs + 95 * newMs) / 100;
        control := control.(smooth := 1000 * smoothMs);
      }
    }

    method UpdateRoundTripCounter(lastAckedPacket: nat) returns (updated: bool)
      modifies this`roundTripCount, this`currentRoundTripEnd
      ensures updated <==> lastAckedPacket > old(currentRoundTripEnd)
      ensures roundTripCount == old(roundTripCount) + if updated then 1 else 0
      ensures currentRoundTripEnd == if updated then lastSentPacket else old(currentRoundTripEnd)
    {
      updated := false;
      if lastAckedPacket > currentRoundTripEnd {
        roundTripCount := roundTripCount + 1;
        currentRoundTripEnd := lastSentPacket;
        return true;
      }
    }

    /** The sender's own part of an acknowledgement; the sampler has yet to take the
        acknowledged packet off its books. */
    method CollectAck(eventTime: nat, packetNumber: nat) returns (roundUpdate: bool, ghost next: nat)
      requires sampler.Valid() && SenderAgrees(ledger, Own()) && Modes()
      requires eventTime >= ledger.clock && lastAckSeq < packetNumber <= lastSentPacket
      modifies this`lastAckSeq, this`sentPackets, this`bytesInFlight, this`currentRoundTripEnd, this`roundTripCount,
               this`control, sampler`packetInfos, sampler`bytesLost
      ensures sampler.Valid() && Modes()
      ensures SplitsAt(ledger.log, ledger.ref.first, next, packetNumber)
      ensures Own() == old(Own()).Ack(packetNumber, ledger.log[next..])
      ensures roundUpdate <==> packetNumber > old(currentRoundTripEnd)
      ensures LostBetween(sampler.packetInfos, old(sampler.packetInfos), old(lastAckSeq), packetNumber)
      ensures RttTaken(ledger, next, old(control), control, eventTime, packetNumber)
    {
      LoseBetween(packetNumber);
      lastAckSeq := packetNumber;
      next := UpdateRttAndInflight(eventTime, packetNumber);
      roundUpdate := UpdateRoundTripCounter(lastAckSeq);
    }

    /** What is left to book after this is the acknowledged packet itself. */
    method PrepareAck(eventTime: nat, packetNumber: nat) returns (roundUpdate: bool, ghost after: Ledger,
                      ghost next: nat)
      requires Accounts() && Modes() && eventTime >= ledger.clock && lastAckSeq < packetNumber <= lastSentPacket
      modifies this`lastAckSeq, this`sentPackets, this`bytesInFlight, this`currentRoundTripEnd, this`roundTripCount,
               this`control, sampler`packetInfos, sampler`bytesLost
      ensures sampler.Valid() && Modes()
      ensures next <= |ledger.log| && Own() == old(Own()).Ack(packetNumber, ledger.log[next..])
      ensures roundUpdate <==> packetNumber > old(currentRoundTripEnd)
      ensures Agree(after, Own(), sampler.View().Ack(eventTime, packetNumber))
      ensures Settled(ledger, after, old(sampler.packetInfos), sampler.View().Ack(eventTime, packetNumber).acked,
                      eventTime, packetNumber, next, roundUpdate)
      ensures RttTaken(ledger, next, old(control), control, eventTime, packetNumber)
      ensures packetNumber in old(sampler.packetInfos) <==> packetNumber in sampler.packetInfos
      ensures packetNumber in sampler.packetInfos ==>
                old(sampler.packetInfos)[packetNumber] == sampler.packetInfos[packetNumber]
    {
      ghost var own, totals := Own(), sampler.View();
      roundUpdate, next := CollectAck(eventTime, packetNumber);
      after := ledger.Ack(eventTime, packetNumber, next, roundUpdate);
      assert sampler.View() == totals.(infos := sampler.packetInfos);
      AckAgrees(ledger, own, Own(), totals, sampler.packetInfos, eventTime, packetNumber, next);
    }

    /** The sampler takes the acknowledged packet off its books, and so does the ledger. */
    method EnterAck(eventTime: nat, packetNumber: nat, roundUpdate: bool, ghost after: Ledger, ghost next: nat,
                    ghost infos: map<nat, PacketState>)
        returns (bw: Bandwidth)
      requires sampler.Valid() && Agree(after, Own(), sampler.View().Ack(eventTime, packetNumber))
      requires Settled(ledger, after, infos, sampler.View().Ack(eventTime, packetNumber).acked,
                       eventTime, packetNumber, next, roundUpdate)
      requires packetNumber in infos <==> packetNumber in sampler.packetInfos
      requires packetNumber in infos ==> infos[packetNumber] == sampler.packetInfos[packetNumber]
      modifies this`ledger, sampler
      ensures Accounts() && Own() == old(Own()) && ledger == after
      ensures Settled(old(ledger), ledger, infos, sampler.totalBytesAcked, eventTime, packetNumber, next, roundUpdate)
      ensures Sampling(bw, old(ledger), ledger, eventTime, packetNumber, next, roundUpdate)
    {
      ghost var own := Own();
      bw := sampler.OnPacketAcknowledged(eventTime, packetNumber, roundUpdate);
      if packetNumber in infos {
        RecordedSample(bw, infos[packetNumber], ledger.log, after.acks, ledger.snaps[next - 1], next - 1, eventTime,
                       roundUpdate, sampler.totalBytesAcked);
      }
      ledger := after;
      assert Own() == own;
    }

    /** The bookkeeping half of OnAck. */
    method SettleAck(eventTime: nat, packetNumber: nat) returns (roundUpdate: bool, bw: Bandwidth, ghost next: nat)
      requires Accounts() && Modes() && eventTime >= ledger.clock && lastAckSeq < packetNumber <= lastSentPacket
      modifies this`lastAckSeq, this`sentPackets, this`bytesInFlight, this`currentRoundTripEnd, this`roundTripCount,
               this`control, this`ledger, sampler
      ensures Accounts() && Modes()
      ensures next <= |ledger.log| && Own() == old(Own()).Ack(packetNumber, ledger.log[next..])
      ensures roundUpdate <==> packetNumber > old(currentRoundTripEnd)
      ensures Settled(old(ledger), ledger, old(sampler.packetInfos), sampler.totalBytesAcked,
                      eventTime, packetNumber, next, roundUpdate)
      ensures Sampling(bw, old(ledger), ledger, eventTime, packetNumber, next, roundUpdate)
      ensures RttTaken(old(ledger), next, old(control), control, eventTime, packetNumber)
    {
      ghost var infos, after := sampler.packetInfos, ledger;
      roundUpdate, after, next := PrepareAck(eventTime, packetNumber);
      ghost var own, d := Own(), control;
      bw := EnterAck(eventTime, packetNumber, roundUpdate, after, next, infos);
      assert Own() == own && control == d && ledger == after;
    }

    method MeasureRtt(now: nat, packetNumber: nat)
      requires Modes() && LogBounds(ledger.log, lastSentPacket, ledger.clock) && now >= ledger.clock
      requires ledger.ref.first <= |ledger.log| && sentPackets == ledger.log[ledger.ref.first..]
      modifies this`control
      ensures Modes() && RttOf(ledger.log, ledger.ref.first, old(control), control, now, packetNumber)
    {
      var found, sentTs := FindSent(packetNumber);
      OpenIffInSuffix(ledger.log, ledger.ref.first, packetNumber);
      if found {
        ghost var k :| 0 <= k < |sentPackets| && sentPackets[k].number == packetNumber && sentPackets[k].time == sentTs;
        assert sentPackets[k] == ledger.log[ledger.ref.first + k];
        UpdateRtt(now, packetNumber, now - sentTs);
        assert MeasuredBy(ledger.log[ledger.ref.first + k], old(control), control, now, packetNumber);
      }
    }

    method UpdateRttAndInflight(now: nat, packetNumber: nat) returns (ghost next: nat)
      requires Modes() && LogBounds(ledger.log, lastSentPacket, ledger.clock) && now >= ledger.clock
      requires InFlightFrom(ledger.log, ledger.ref.first, sentPackets, bytesInFlight)
      modifies this`sentPackets, this`bytesInFlight, this`control
      ensures Modes() && SplitsAt(ledger.log, ledger.ref.first, next, packetNumber)
      ensures InFlightFrom(ledger.log, next, sentPackets, bytesInFlight)
      ensures RttTaken(ledger, next, old(control), control, now, packetNumber)
    {
      MeasureRtt(now, packetNumber);
      next := RemoveUpTo(packetNumber, ledger.log, ledger.ref.first);
      RttOfLast(ledger, next, old(control), control, now, packetNumber);
    }

    method CheckIfCongestion() returns (congested: bool)
      ensures congested <==> Congested(control)
    {
      congested := false;
      if control.base != Infinity {
        if 10 * control.smooth > 12 * control.base.us && control.mode.Increase? {
          congested := true;
        }
      }
    }

    /** Phase 1 is never the first phase of a stay in INCREASE. */
    method EnterIncreaseMode(now: nat, rand: nat)
      modifies this`control
      ensures IncreaseEntered(old(control), control, now, rand)
    {
      control := control.(mode := Increase);
      var offset := rand % (GAIN_CYCLE_LENGTH - 1);
      if offset >= 1 {
        offset := offset + 1;
      }
      control := control.(offset := offset, cycleStart := now, gain := PacingGain(offset));
    }

    method EnterDecrease(expired: bool, bandwidth: nat)
      modifies this`control
      ensures BackoffEntered(old(control), control, expired, lastSentPacket, bandwidth)
    {
      control := control.(seqAtBackoff := lastSentPacket, smooth := 0, base := Infinity);
      control := control.(mode := Decrease, record := control.minRtt, exitAt := 0);
      control := control.(lowRtt := Infinity, gain := DECREASE_GAIN);
      control := control.(target := Window(control.minRtt, bandwidth), expired := false);
      if expired {
        control := control.(expired := true);
      }
    }

    /** Leaves the back-off once the excess is drained, or a probe for the minimum round trip has lasted long enough. */
    method MaybeExitDecrease(now: nat, rand: nat) returns (ghost restored: Control)
      requires control.mode == Decrease
      modifies this`control
      ensures BackoffLeft(old(control), restored, control, now, bytesInFlight, rand)
    {
      restored := control;
      if control.exitAt == 0 {
        control := control.(exitAt := now);
      }
      var excessDrained := false;
      if bytesInFlight <= control.target {
        excessDrained := true;
      }
      if (control.expired && now - control.exitAt > 4 * control.record) || excessDrained {
        if control.expired {
          if control.lowRtt == Infinity {
            control := control.(minRtt := control.record, minRttAt := now);
          } else {
            control := control.(minRtt := control.lowRtt.us, minRttAt := control.lowRttAt);
          }
          control := control.(expired := false);
        }
        restored := control;
        EnterIncreaseMode(now, rand);
      }
    }

    method MaybeEnterOrExitDecrease(now: nat, expired: bool, congested: bool, bandwidth: nat, rand: nat)
        returns (ghost entered: Control, ghost restored: Control)
      modifies this`control
      ensures if old(control.mode) != Decrease && (expired || congested)
              then BackoffEntered(old(control), entered, expired, lastSentPacket, bandwidth)
              else entered == old(control)
      ensures if entered.mode.Decrease? then BackoffLeft(entered, restored, control, now, bytesInFlight, rand)
              else control == entered
    {
      if control.mode != Decrease && (expired || congested) {
        EnterDecrease(expired, bandwidth);
      }
      entered, restored := control, control;
      if control.mode == Decrease {
        restored := MaybeExitDecrease(now, rand);
      }
    }

    method CheckIfFullBandwidthReached(bandwidth: nat)
      modifies this`control
      ensures Grown(old(control), control, bandwidth)
    {
      if 4 * bandwidth >= 5 * control.bandwidth {
        control := control.(bandwidth := bandwidth, flatRounds := 0);
        return;
      }
      control := control.(flatRounds := control.flatRounds + 1);
      if control.flatRounds >= ROUNDS_WITHOUT_GROWTH {
        control := control.(full := true);
      }
    }

    method MaybeExitStartupOrDrain(now: nat, bandwidth: nat, rand: nat) returns (ghost drained: Control)
      modifies this`control
      ensures Drained(old(control), drained)
      ensures StartupLeft(drained, control, now, bandwidth, bytesInFlight, rand)
    {
      if control.mode == Start && control.full {
        control := control.(mode := Drain, gain := DRAIN_GAIN);
      }
      drained := control;
      if control.mode == Drain {
        if bytesInFlight <= Window(control.minRtt, bandwidth) {
          EnterIncreaseMode(now, rand);
        }
      }
    }

    method UpdateGainCyclePhase(now: nat)
      requires control.mode == Increase && control.offset < GAIN_CYCLE_LENGTH
      modifies this`control
      ensures Cycled(old(control), control, now)
    {
      if now - control.cycleStart > MinRttOf(control.minRtt) {
        var offset := (control.offset + 1) % GAIN_CYCLE_LENGTH;
        control := control.(offset := offset, cycleStart := now, gain := PacingGain(offset));
      }
    }

    method UpdateBackoff(now: nat, bandwidth: nat, rand: nat) returns (ghost entered: Control, ghost restored: Control)
      modifies this`control
      ensures Backed(old(control), entered, restored, control,
                     Reading(now, false, bandwidth, bandwidth, rand, bytesInFlight, lastSentPacket))
    {
      var expired := now > control.minRttAt + MIN_RTT_EXPIRY;
      var congested := false;
      if control.mode == Increase {
        congested := CheckIfCongestion();
      }
      entered, restored := MaybeEnterOrExitDecrease(now, expired, congested, bandwidth, rand);
    }

    /** In and out of a back-off, then out of START and DRAIN. */
    method StartUpdate(now: nat, roundUpdate: bool, before: nat, after: nat, rand: nat) returns (ghost path: Path)
      requires Modes()
      modifies this`control
      ensures Modes() && path.started == control
      ensures var r := Reading(now, roundUpdate, before, after, rand, bytesInFlight, lastSentPacket);
              BackedOff(old(control), path, r) && Started(path.backed, path, r)
    {
      ghost var r := Reading(now, roundUpdate, before, after, rand, bytesInFlight, lastSentPacket);
      ghost var entered, restored := UpdateBackoff(now, before, rand);
      ghost var backed := control;
      if roundUpdate && !control.full {
        CheckIfFullBandwidthReached(after);
      }
      ghost var grown := control;
      ghost var drained := MaybeExitStartupOrDrain(now, after, rand);
      path := Path(entered, restored, backed, grown, drained, control);
      StartedBounded(old(control), path, r);
    }

    /** The mode half of OnAck. `before` and `after` are the bandwidth estimate before
        and after the new sample entered the filter. */
    method UpdateMode(now: nat, roundUpdate: bool, before: nat, after: nat, rand: nat) returns (ghost path: Path)
      requires Modes()
      modifies this`control
      ensures Modes()
      ensures ModesTaken(old(control), path, control,
                         Reading(now, roundUpdate, before, after, rand, bytesInFlight, lastSentPacket))
    {
      path := StartUpdate(now, roundUpdate, before, after, rand);
      if control.mode == Increase {
        UpdateGainCyclePhase(now);
      }
      CycledSteady(path.started, control, now);
    }

    /** Before the first round has ended the modes stay as they are. */
    method MaybeUpdateMode(currentRound: nat, now: nat, roundUpdate: bool, before: nat, after: nat, rand: nat)
        returns (ghost path: Path)
      requires Modes()
      modifies this`control
      ensures Modes()
      ensures if currentRound == 0 then control == old(control)
              else ModesTaken(old(control), path, control,
                              Reading(now, roundUpdate, before, after, rand, bytesInFlight, lastSentPacket))
    {
      path := Path(control, control, control, control, control, control);
      if currentRound != 0 {
        path := UpdateMode(now, roundUpdate, before, after, rand);
      }
    }

    /** Acknowledgements come for sent packets, and time does not run backwards. The ledger settles and samples the
        packet, its round trip is measured, and from the second round on the modes move. */
    method OnAck(eventTime: nat, packetNumber: nat, before: nat, after: nat, rand: nat)
        returns (ghost next: nat, ghost bw: Bandwidth, ghost measured: Control, ghost path: Path)
      requires Accounts() && Modes() && eventTime >= ledger.clock && packetNumber <= lastSentPacket
      modifies this, sampler
      ensures sampler == old(sampler) && Accounts() && Modes()
      ensures ModeStep(old(control.mode), old(control.offset), control.mode, control.offset)
      ensures packetNumber <= old(lastAckSeq) ==>
                ledger == old(ledger) && Own() == old(Own()) && control == old(control)
      ensures packetNumber > old(lastAckSeq) ==>
                && next <= |ledger.log| && Own() == old(Own()).Ack(packetNumber, ledger.log[next..])
                && Settled(old(ledger), ledger, old(sampler.packetInfos), sampler.totalBytesAcked,
                           eventTime, packetNumber, next, packetNumber > old(currentRoundTripEnd))
                && Sampling(bw, old(ledger), ledger, eventTime, packetNumber, next,
                            packetNumber > old(currentRoundTripEnd))
                && RttTaken(old(ledger), next, old(control), measured, eventTime, packetNumber)
                && if old(roundTripCount) == 0 then control == measured
                   else ModesTaken(measured, path, control,
                                   Reading(eventTime, packetNumber > old(currentRoundTripEnd), before, after, rand,
                                           bytesInFlight, lastSentPacket))
    {
      next, bw, measured, path := 0, Bps(0), control, Path(control, control, control, control, control, control);
      if packetNumber > lastAckSeq {
        next, bw, measured, path := AckNew(eventTime, packetNumber, before, after, rand);
        if old(roundTripCount) != 0 {
          ModesStep(measured, path, control,
                    Reading(eventTime, packetNumber > old(currentRoundTripEnd), before, after, rand, bytesInFlight,
                            lastSentPacket));
        }
      }
    }

    method AckNew(eventTime: nat, packetNumber: nat, before: nat, after: nat, rand: nat)
        returns (ghost next: nat, ghost sample: Bandwidth, ghost measured: Control, ghost path: Path)
      requires Accounts() && Modes() && eventTime >= ledger.clock && lastAckSeq < packetNumber <= lastSentPacket
      modifies this, sampler
      ensures sampler == old(sampler) && Accounts() && Modes()
      ensures next <= |ledger.log| && Own() == old(Own()).Ack(packetNumber, ledger.log[next..])
      ensures Settled(old(ledger), ledger, old(sampler.packetInfos), sampler.totalBytesAcked,
                      eventTime, packetNumber, next, packetNumber > old(currentRoundTripEnd))
      ensures Sampling(sample, old(ledger), ledger, eventTime, packetNumber, next,
                       packetNumber > old(currentRoundTripEnd))
      ensures RttTaken(old(ledger), next, old(control), measured, eventTime, packetNumber)
      ensures if old(roundTripCount) == 0 then control == measured
              else ModesTaken(measured, path, control,
                              Reading(eventTime, packetNumber > old(currentRoundTripEnd), before, after, rand,
                                      bytesInFlight, lastSentPacket))
    {
      var currentRound := roundTripCount;
      var roundUpdate, bw;
      roundUpdate, bw, next := SettleAck(eventTime, packetNumber);
      sample, measured := bw, control;
      ghost var own := Own();
      path := MaybeUpdateMode(currentRound, eventTime, roundUpdate, before, after, rand);
      assert Own() == own;
    }
  }
}
