/** A path on which the second frame overtakes the first: its start costs the first frame a piece. */
module Overtaking {
  import opened Admission
  import opened Arithmetic
  import opened Bytes
  import opened Consumption
  import opened EndToEnd
  import opened Fidelity
  import opened Messages
  import opened MpSender
  import opened Numbering
  import opened Ordered
  import opened PathLayer
  import opened Reassembly
  import opened Receiving
  import opened SegmentCodec
  import opened Splitting
  import opened Startup
  import P = PathReceiver

  /** One half of a frame that need not be whole, over the path and with the path id given. */
  predicate Half(a: Arrival, pid: nat, packetId: nat, fid: nat, index: nat) {
    && IsHalf(a) && a.pid == pid && a.seg.packetId == packetId && a.seg.fid == fid && a.seg.index == index
  }

  /** First halves go over path 1 and second ones over path 2, numbered from 1. On path 1 the second frame overtakes
      the first; a while later the heartbeat ticks. */
  predicate Overtaken(x: Arrival, y: Arrival, z: Arrival) {
    Half(x, 1, 2, 2, 0) && Half(y, 2, 1, 1, 1) && Half(z, 1, 1, 1, 0)
  }

  // ---- the frame layer ----

  /** One of two pieces has been there since time 1. */
  predicate Halved(f: Frame) {
    f.recv == 1 && f.total == 2 && f.waittingTs == 1 && f.frameFirstTs == 0 && f.frameTimestamp == 0
  }

  predicate AllHalf(cache: map<nat, Frame>) {
    forall fid :: fid in cache ==> Halved(cache[fid])
  }

  predicate IsHalf(a: Arrival) {
    a.seg.total == 2 && a.seg.index < 2 && a.seg.ftype == 0 && a.now == 1 && a.wait == 0
  }

  /** A half that comes in is kept. */
  lemma HalfIsKept(st: State, a: Arrival)
    requires IsHalf(a) && a.seg.fid !in st.cache && a.seg.fid > st.minFid && !st.traced && AllHalf(st.cache)
    ensures Fits(st.cache, a.seg) && Take(st, a) == Store(st, a)
    ensures AllHalf(Take(st, a).cache) && Take(st, a).cache.Keys == st.cache.Keys + {a.seg.fid}
  {
    var next := Store(st, a);
    if next.cache != map[] {
      assert Halved(next.cache[Least(next.cache.Keys)]);
    }
  }

  lemma HeadIsHanded(st: State)
    requires AllHalf(st.cache) && st.cache != map[] && st.sink
    ensures HeadReady(st, 2000)
    ensures TakeHead(st).delivered == st.delivered + [Handed(Least(st.cache.Keys), st.cache[Least(st.cache.Keys)])]
    ensures Halved(st.cache[Least(st.cache.Keys)])
  {
  }

  /** When it has waited long enough, it is handed over. */
  lemma HalfIsHanded(st: State)
    requires Good(st) && AllHalf(st.cache) && st.cache != map[] && st.sink && st.delivered == []
    ensures var log := Drain(st, 2000).delivered;
            log != [] && log[0].fid == Least(st.cache.Keys) && log[0].recv == 1 && log[0].total == 2
  {
    var next := TakeHead(st);
    HeadIsHanded(st);
    TakeHeadGood(st);
    DrainAbove(next, 2000);
    assert next.delivered[0] == Drain(next, 2000).delivered[0];
  }

  lemma RunArrive(sources: Sources, h: seq<Event>, a: Arrival)
    requires AllGenuine(sources, h) && Genuine(sources, a.seg)
    ensures AllGenuine(sources, h + [Arrive(a)]) && Fits(Run(sources, true, false, h).cache, a.seg)
    ensures Run(sources, true, false, h + [Arrive(a)]) == Take(Run(sources, true, false, h), a)
  {
    assert (h + [Arrive(a)])[..|h|] == h;
    TakeHeld(sources, Run(sources, true, false, h), a);
  }

  lemma RunTick(sources: Sources, h: seq<Event>, now: nat)
    requires AllGenuine(sources, h)
    ensures AllGenuine(sources, h + [Tick(now)])
    ensures Run(sources, true, false, h + [Tick(now)]) == Drain(Run(sources, true, false, h), now)
  {
    assert (h + [Tick(now)])[..|h|] == h;
  }

  lemma HalvesWait(sources: Sources, x: Arrival, y: Arrival)
    requires Genuine(sources, x.seg) && Genuine(sources, y.seg) && IsHalf(x) && IsHalf(y)
    requires x.seg.fid == 2 && y.seg.fid == 1
    ensures Run(sources, true, false, [Arrive(x)]).consumed == []
    ensures Run(sources, true, false, [Arrive(x), Arrive(y)]).consumed == []
    ensures var log := Run(sources, true, false, [Arrive(x), Arrive(y), Tick(2000)]).delivered;
            log != [] && log[0].fid == 1 && log[0].recv == 1 && log[0].total == 2
  {
    var h1, h2 := [Arrive(x)], [Arrive(x), Arrive(y)];
    assert [] + [Arrive(x)] == h1 && h1 + [Arrive(y)] == h2 && h2 + [Tick(2000)] == [Arrive(x), Arrive(y), Tick(2000)];
    RunArrive(sources, [], x);
    HalfIsKept(Start(true, false), x);
    RunArrive(sources, h1, y);
    HalfIsKept(Run(sources, true, false, h1), y);
    RunTick(sources, h2, 2000);
    RunGood(sources, true, false, h2);
    HalfIsHanded(Run(sources, true, false, h2));
  }

  // ---- what the paths make of it ----

  /** Nothing has been consumed, and only one packet has come in on the path, or none. */
  lemma SeenOfOne(sources: Sources, e: Event, pid: nat)
    requires AllGenuine(sources, [e]) && e.Arrive? && Run(sources, true, false, [e]).consumed == []
    ensures PathEvents(sources, false, [e], pid) == Noted(e, pid)
  {
    assert [e][..0] == [];
    assert PathEvents(sources, false, [], pid) == [];
  }

  lemma SeenOfTwo(sources: Sources, e: Event, f: Event, pid: nat)
    requires AllGenuine(sources, [e]) && AllGenuine(sources, [e, f]) && e.Arrive? && f.Arrive?
    requires Run(sources, true, false, [e]).consumed == [] && Run(sources, true, false, [e, f]).consumed == []
    ensures PathEvents(sources, false, [e, f], pid) == Noted(e, pid) + Noted(f, pid)
  {
    SeenOfOne(sources, e, pid);
    assert [e, f][..1] == [e];
  }

  lemma RunOfOne(id: nat, index: nat)
    ensures P.Run(P.NOTHING_SEEN, []) == P.NOTHING_SEEN
    ensures P.Run(P.NOTHING_SEEN, [P.Arrival(id, index)]) == P.Step(P.NOTHING_SEEN, P.Arrival(id, index))
  {
    assert [P.Arrival(id, index)][1..] == [];
  }

  /** A path that has seen nothing takes what comes in. */
  lemma FirstOnPath(sources: Sources, h: seq<Event>, a: Arrival)
    requires AllGenuine(sources, h) && PathEvents(sources, false, h, a.pid) == [] && a.seg.packetId > 0
    ensures Taken(sources, false, h, a)
  {
    RunOfOne(0, 0);
  }

  /** The overtaking segment starts its path behind the overtaken one. */
  lemma OvertakenIsRefused(sources: Sources, x: Arrival, y: Arrival, z: Arrival)
    requires Genuine(sources, x.seg) && Genuine(sources, y.seg) && Overtaken(x, y, z)
    ensures !Taken(sources, false, [Arrive(x), Arrive(y)], z)
  {
    HalvesWait(sources, x, y);
    SeenOfTwo(sources, Arrive(x), Arrive(y), 1);
    RunOfOne(2, 0);
    var seen := P.Step(P.NOTHING_SEEN, P.Arrival(2, 0)).seen;
    assert 1 in seen && 2 in seen;
  }

  lemma HeardNext(sources: Sources, ts: seq<Event>, e: Event, h: seq<Event>, more: seq<Event>)
    requires AllGenuine(sources, ts + [e]) && AllGenuine(sources, ts) && AllGenuine(sources, h)
    requires Heard(sources, false, ts) == h && PassedOn(sources, false, h, e) == more
    ensures Heard(sources, false, ts + [e]) == h + more
  {
    assert (ts + [e])[..|ts|] == ts;
  }

  lemma HeardTwo(sources: Sources, x: Arrival, y: Arrival, z: Arrival)
    requires Genuine(sources, x.seg) && Genuine(sources, y.seg) && Overtaken(x, y, z)
    ensures Heard(sources, false, [Arrive(x), Arrive(y)]) == [Arrive(x), Arrive(y)]
  {
    HalvesWait(sources, x, y);
    FirstOnPath(sources, [], x);
    HeardNext(sources, [], Arrive(x), [], [Arrive(x)]);
    assert [] + [Arrive(x)] == [Arrive(x)];
    SeenOfOne(sources, Arrive(x), 2);
    FirstOnPath(sources, [Arrive(x)], y);
    HeardNext(sources, [Arrive(x)], Arrive(y), [Arrive(x)], [Arrive(y)]);
    assert [Arrive(x)] + [Arrive(y)] == [Arrive(x), Arrive(y)];
  }

  /** When a segment is refused, the frame layer hears no more than the tick after it. */
  lemma HeardPastRefused(sources: Sources, h: seq<Event>, z: Arrival, now: nat)
    requires AllGenuine(sources, h) && Genuine(sources, z.seg)
    requires Heard(sources, false, h) == h && !Taken(sources, false, h, z)
    ensures Heard(sources, false, h + [Arrive(z)] + [Tick(now)]) == h + [Tick(now)]
  {
    HeardNext(sources, h, Arrive(z), h, []);
    assert h + [] == h;
    HeardNext(sources, h + [Arrive(z)], Tick(now), h, [Tick(now)]);
  }

  /** What the frame layer hears is the overtaking segment, the one on the other path, and the tick. */
  lemma OvertakenIsHeard(sources: Sources, x: Arrival, y: Arrival, z: Arrival)
    requires Genuine(sources, x.seg) && Genuine(sources, y.seg) && Genuine(sources, z.seg) && Overtaken(x, y, z)
    ensures Heard(sources, false, [Arrive(x), Arrive(y), Arrive(z), Tick(2000)])
         == [Arrive(x), Arrive(y), Tick(2000)]
  {
    var h := [Arrive(x), Arrive(y)];
    HeardTwo(sources, x, y, z);
    OvertakenIsRefused(sources, x, y, z);
    HeardPastRefused(sources, h, z, 2000);
    assert h + [Arrive(z)] + [Tick(2000)] == [Arrive(x), Arrive(y), Arrive(z), Tick(2000)];
  }

  lemma OvertakenIsHanded(sources: Sources, x: Arrival, y: Arrival, z: Arrival)
    requires Genuine(sources, x.seg) && Genuine(sources, y.seg) && Genuine(sources, z.seg) && Overtaken(x, y, z)
    ensures var log := Log(sources, false, [Arrive(x), Arrive(y), Arrive(z), Tick(2000)]);
            log != [] && log[0].fid == 1 && log[0].recv == 1 && log[0].total == 2
  {
    OvertakenIsHeard(sources, x, y, z);
    HalvesWait(sources, x, y);
  }

  lemma OvertakenIsNumbered(x: Arrival, y: Arrival, z: Arrival)
    requires Overtaken(x, y, z)
    ensures Numbered([Arrive(x), Arrive(y), Arrive(z), Tick(2000)])
  {
  }

  lemma BothHalvesCame(sources: Sources, x: Arrival, y: Arrival, z: Arrival)
    requires Genuine(sources, y.seg) && Overtaken(x, y, z)
    ensures AllCame(sources, [Arrive(x), Arrive(y), Arrive(z)], 1)
  {
    var ts := [Arrive(x), Arrive(y), Arrive(z)];
    assert Brings(ts[2], 1, 0) && Brings(ts[1], 1, 1);
  }

  /** Both pieces of the first frame come in before it is handed over, and yet it is handed over with one: when the
      other comes, the overtaking segment has started the path behind it. */
  lemma OvertakingCostsPiece(sources: Sources, x: Arrival, y: Arrival, z: Arrival)
    requires Genuine(sources, x.seg) && Genuine(sources, y.seg) && Genuine(sources, z.seg) && Overtaken(x, y, z)
    ensures AllCame(sources, [Arrive(x), Arrive(y), Arrive(z)], 1)
    ensures var ts := [Arrive(x), Arrive(y), Arrive(z), Tick(2000)];
            && Numbered(ts)
            && var log := Log(sources, false, ts);
               log != [] && log[0].fid == 1 && log[0].recv == 1 && log[0].total == 2
  {
    OvertakenIsNumbered(x, y, z);
    BothHalvesCame(sources, x, y, z);
    OvertakenIsHanded(sources, x, y, z);
  }

  // ---- the same over the wire ----

  /** The k-th segment handed over, as it comes in at time 1. */
  ghost predicate ComesAs(sources: Sources, puts: seq<(nat, Segment)>, k: nat, e: Event) {
    && OfPut(puts, e, k) && Genuine(sources, e.arrival.seg)
    && e.arrival.now == 1 && e.arrival.firstTs == 0 && e.arrival.wait == 0
  }

  ghost predicate CanCome(puts: seq<(nat, Segment)>, k: nat) {
    k < |puts| && puts[k].0 < 0x100 && NumberOf(puts, k) < TWO32
  }

  lemma PutLeaves(shots: map<nat, Shot>, puts: seq<(nat, Segment)>, k: nat) returns (wire: seq<Byte>)
    requires Shots(shots) && AllPieces(shots, puts) && CanCome(puts, k)
    ensures |wire| >= CRC_SIZE && FromPut(puts, wire, k) && FromSender(shots, wire)
  {
    var put, header := puts[k].1, Header(puts[k].0, 0);
    assert PieceOf(shots, put);
    PieceAccepted(SourcesOf(shots), shots[put.fid], put.index, header, NumberOf(puts, k), 0, 0);
    wire := EncodeMessage(header, SegBody(Addressed(put, NumberOf(puts, k), 0, 0)));
    assert PutOnWire(puts, wire, k, 0, 0, 0);
    assert PieceOnWire(shots[put.fid], wire, put.index, header, NumberOf(puts, k), 0, 0);
  }

  lemma PutOpensAs(sources: Sources, puts: seq<(nat, Segment)>, wire: seq<Byte>, k: nat) returns (t: Coming, e: Event)
    requires |wire| >= CRC_SIZE && k < |puts| && ReceivedPut(puts, Receive(wire), k) && FromPut(puts, wire, k)
    requires AcceptedGenuine(sources, Receive(wire))
    ensures PutOrDamaged(puts, t) && (t.Datagram? ==> |t.wire| >= CRC_SIZE) && Opened(t) == [e]
    ensures ComesAs(sources, puts, k, e)
  {
    t := Datagram(wire, puts[k].0, 1, 0, 0);
    e := Arrive(Arrival(puts[k].0, Receive(wire).body.seg, 1, 0, 0));
  }

  lemma PutComes(shots: map<nat, Shot>, puts: seq<(nat, Segment)>, k: nat) returns (t: Coming, e: Event)
    requires Shots(shots) && AllPieces(shots, puts) && CanCome(puts, k)
    ensures PutOrDamaged(puts, t) && (t.Datagram? ==> |t.wire| >= CRC_SIZE) && Opened(t) == [e]
    ensures ComesAs(SourcesOf(shots), puts, k, e)
  {
    var wire := PutLeaves(shots, puts, k);
    PutReceived(shots, puts, wire, k);
    WireGenuine(shots, wire);
    t, e := PutOpensAs(SourcesOf(shots), puts, wire, k);
  }

  lemma ThenOpens(puts: seq<(nat, Segment)>, ts: seq<Coming>, t: Coming, e: Event)
    requires FromPutsOrDamaged(puts, ts) && Whole(ts) && PutOrDamaged(puts, t)
    requires (t.Datagram? ==> |t.wire| >= CRC_SIZE) && Opened(t) == [e]
    ensures FromPutsOrDamaged(puts, ts + [t]) && Whole(ts + [t]) && AllOpened(ts + [t]) == AllOpened(ts) + [e]
  {
    assert (ts + [t])[..|ts|] == ts;
  }

  ghost predicate AllComeAs(sources: Sources, puts: seq<(nat, Segment)>, ks: seq<nat>, events: seq<Event>) {
    |events| == |ks| && forall n :: 0 <= n < |ks| ==> ComesAs(sources, puts, ks[n], events[n])
  }

  lemma AllComeNext(sources: Sources, puts: seq<(nat, Segment)>, ks: seq<nat>, before: seq<Event>, e: Event)
    requires ks != [] && AllComeAs(sources, puts, ks[..|ks| - 1], before)
    requires ComesAs(sources, puts, ks[|ks| - 1], e)
    ensures AllComeAs(sources, puts, ks, before + [e])
  {
  }

  /** The segments handed over can come in in any order. */
  lemma {:induction false} PutsCome(shots: map<nat, Shot>, puts: seq<(nat, Segment)>, ks: seq<nat>)
      returns (ts: seq<Coming>, events: seq<Event>)
    requires Shots(shots) && AllPieces(shots, puts) && forall k :: k in ks ==> CanCome(puts, k)
    ensures FromPutsOrDamaged(puts, ts) && Whole(ts) && AllOpened(ts) == events
    ensures AllComeAs(SourcesOf(shots), puts, ks, events)
    decreases |ks|
  {
    if ks == [] {
      ts, events := [], [];
    } else {
      var front, before := PutsCome(shots, puts, ks[..|ks| - 1]);
      var t, e := PutComes(shots, puts, ks[|ks| - 1]);
      ThenOpens(puts, front, t, e);
      AllComeNext(SourcesOf(shots), puts, ks, before, e);
      ts, events := front + [t], before + [e];
    }
  }

  /** Two frames of two pieces each that need not be whole, each handed over with its first piece to path 1 and its
      second to path 2. */
  predicate Halves(a: Shot, b: Shot) {
    a.fid == 1 && b.fid == 2 && a.ftype == b.ftype == 0 && |Cut(a.data)| == |Cut(b.data)| == 2
  }

  function HalvesPut(a: Shot, b: Shot): seq<(nat, Segment)>
    requires Halves(a, b)
  {
    [(1, Piece(a, 0)), (2, Piece(a, 1)), (1, Piece(b, 0)), (2, Piece(b, 1))]
  }

  lemma HalvesNumbered(a: Shot, b: Shot)
    requires Halves(a, b)
    ensures var puts := HalvesPut(a, b);
            NumberOf(puts, 0) == 1 && NumberOf(puts, 1) == 1 && NumberOf(puts, 2) == 2 && FramesRise(puts)
  {
    var puts := HalvesPut(a, b);
    assert PutsOn(puts, 1, 1) == 1 && PutsOn(puts, 1, 2) == 1 && PutsOn(puts, 2, 1) == 0;
  }

  lemma HalvesPieces(a: Shot, b: Shot, shots: map<nat, Shot>)
    requires Halves(a, b) && shots == map[1 := a, 2 := b]
    ensures Shots(shots) && AllPieces(shots, HalvesPut(a, b))
  {
  }

  lemma HalvesOvertaken(a: Shot, b: Shot, sources: Sources, events: seq<Event>)
    requires Halves(a, b) && 1 in sources && 2 in sources
    requires sources[1] == Source(a.data, 0) && sources[2] == Source(b.data, 0)
    requires AllComeAs(sources, HalvesPut(a, b), [2, 1, 0], events)
    ensures var x, y, z := events[0].arrival, events[1].arrival, events[2].arrival;
            && Overtaken(x, y, z) && events == [Arrive(x), Arrive(y), Arrive(z)]
            && Genuine(sources, x.seg) && Genuine(sources, y.seg) && Genuine(sources, z.seg)
  {
    HalvesNumbered(a, b);
    var ks := [2, 1, 0];
    assert ComesAs(sources, HalvesPut(a, b), ks[0], events[0]);
    assert ComesAs(sources, HalvesPut(a, b), ks[1], events[1]);
    assert ComesAs(sources, HalvesPut(a, b), ks[2], events[2]);
  }

  lemma HalvesLosePiece(a: Shot, b: Shot, sources: Sources, events: seq<Event>)
    requires Halves(a, b) && sources == SourcesOf(map[1 := a, 2 := b])
    requires AllComeAs(sources, HalvesPut(a, b), [2, 1, 0], events)
    ensures AllGenuine(sources, events + [Tick(2000)]) && AllCame(sources, events, 1)
    ensures var log := Log(sources, false, events + [Tick(2000)]);
            log != [] && log[0].fid == 1 && log[0].recv == 1 && log[0].total == 2
  {
    HalvesOvertaken(a, b, sources, events);
    OvertakingCostsPiece(sources, events[0].arrival, events[1].arrival, events[2].arrival);
    assert events + [Tick(2000)] == [events[0], events[1], events[2], Tick(2000)];
  }

  /** Both pieces of the first frame come in undamaged and in time, and yet it is handed over with one of them: on
      path 1 the second frame came first, and started the path behind the first. */
  lemma OvertakenLosesPiece(a: Shot, b: Shot, sources: Sources) returns (ts: seq<Coming>, events: seq<Event>)
    requires Halves(a, b) && sources == SourcesOf(map[1 := a, 2 := b])
    ensures FramesRise(HalvesPut(a, b)) && FromPutsOrDamaged(HalvesPut(a, b), ts) && Whole(ts)
    ensures AllOpened(ts) == events + [Tick(2000)] && AllGenuine(sources, events + [Tick(2000)])
    ensures AllCame(sources, events, 1)
    ensures var log := Log(sources, false, events + [Tick(2000)]);
            log != [] && log[0].fid == 1 && log[0].recv == 1 && log[0].total == 2
  {
    HalvesNumbered(a, b);
    HalvesPieces(a, b, map[1 := a, 2 := b]);
    ts, events := PutsCome(map[1 := a, 2 := b], HalvesPut(a, b), [2, 1, 0]);
    ThenOpens(HalvesPut(a, b), ts, Beat(2000), Tick(2000));
    ts := ts + [Beat(2000)];
    HalvesLosePiece(a, b, sources, events);
  }
}
