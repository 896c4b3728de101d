/** From the frames a sender cuts to the frames a receiver delivers, over the wire format and through the tables of
    every path: datagrams may be damaged, lost, repeated and reordered. */
module EndToEnd {
  import opened Admission
  import opened Arithmetic
  import opened Bytes
  import opened Fidelity
  import opened Messages
  import opened MpSender
  import opened Numbering
  import opened PathLayer
  import opened Reassembly
  import opened Receiving
  import opened SegmentCodec
  import opened Splitting
  import opened Startup

  /** What the path writes into a segment before it leaves. */
  function Addressed(seg: Segment, packetId: U32, sendTs: U16, transportSeq: U16): Segment {
    seg.(packetId := packetId, sendTs := sendTs, transportSeq := transportSeq)
  }

  lemma CarriedIndex(seg: Segment)
    requires seg.index < seg.total
    ensures Carried(seg).index == seg.index
  {
  }

  /** Every piece a sender queues is accepted as a genuine segment, whatever its path wrote into it. */
  lemma PieceAccepted(sources: map<nat, Source>, s: Shot, i: nat, h: Header, packetId: U32, sendTs: U16,
                      transportSeq: U16)
    requires i < |Cut(s.data)| < 0x1_0000 && s.ftype <= 1
    requires s.fid in sources && sources[s.fid] == Source(s.data, s.ftype)
    ensures var body := SegBody(Addressed(Piece(s, i), packetId, sendTs, transportSeq));
            && Sendable(body) && |EncodeMessage(h, body)| >= CRC_SIZE
            && var r := Receive(EncodeMessage(h, body));
               && r.Accepted? && r.header == h && r.body.SegBody?
               && Genuine(sources, r.body.seg)
               && r.body.seg.packetId == packetId && r.body.seg.fid == s.fid && r.body.seg.index == i
  {
    var seg := Addressed(Piece(s, i), packetId, sendTs, transportSeq);
    PieceGenuine(sources, s, i);
    CarriedGenuine(sources, seg);
    MessageRoundTrip(h, SegBody(seg));
    CarriedIndex(seg);
  }

  /** A datagram comes in at the socket of a path, or the heartbeat ticks. */
  datatype Coming = Datagram(wire: seq<Byte>, pid: nat, now: nat, firstTs: int, wait: nat) | Beat(now: nat)

  /** The frames sent, by their ids. */
  ghost predicate Shots(shots: map<nat, Shot>) {
    forall fid :: fid in shots ==>
      shots[fid].fid == fid && shots[fid].ftype <= 1 && |Cut(shots[fid].data)| < 0x1_0000
  }

  function SourcesOf(shots: map<nat, Shot>): map<nat, Source> {
    map fid | fid in shots :: Source(shots[fid].data, shots[fid].ftype)
  }

  ghost predicate PieceOnWire(s: Shot, wire: seq<Byte>, i: nat, h: Header, packetId: U32, sendTs: U16,
                              transportSeq: U16)
    requires |Cut(s.data)| < 0x1_0000
  {
    && i < |Cut(s.data)|
    && var body := SegBody(Addressed(Piece(s, i), packetId, sendTs, transportSeq));
       Sendable(body) && wire == EncodeMessage(h, body)
  }

  /** The datagram carries a piece of a frame sent. */
  ghost predicate FromSender(shots: map<nat, Shot>, wire: seq<Byte>)
    requires Shots(shots)
  {
    exists fid, i, h, packetId, sendTs, transportSeq ::
      fid in shots && PieceOnWire(shots[fid], wire, i, h, packetId, sendTs, transportSeq)
  }

  /** What comes in is from the sender, or damaged so that the checksum tells. */
  ghost predicate SentOrDamaged(shots: map<nat, Shot>, t: Coming)
    requires Shots(shots)
  {
    t.Datagram? ==> |t.wire| >= CRC_SIZE && (FromSender(shots, t.wire) || Receive(t.wire) == Damaged)
  }

  ghost predicate FromSenderOrDamaged(shots: map<nat, Shot>, ts: seq<Coming>)
    requires Shots(shots)
  {
    forall k :: 0 <= k < |ts| ==> SentOrDamaged(shots, ts[k])
  }

  // ---- what comes in undamaged ----

  /** The segment in an undamaged datagram, if it names the path it comes in on. */
  function Opened(t: Coming): seq<Event>
    requires t.Datagram? ==> |t.wire| >= CRC_SIZE
  {
    match t
    case Beat(now) => [Tick(now)]
    case Datagram(wire, pid, now, firstTs, wait) =>
      match Receive(wire)
      case Accepted(header, SegBody(seg), _) =>
        if header.ver == pid then [Arrive(Arrival(pid, seg, now, firstTs, wait))] else []
      case _ => []
  }

  ghost predicate Whole(ts: seq<Coming>) {
    forall k :: 0 <= k < |ts| && ts[k].Datagram? ==> |ts[k].wire| >= CRC_SIZE
  }

  /** All that comes in undamaged, in order. */
  ghost function AllOpened(ts: seq<Coming>): seq<Event>
    requires Whole(ts)
    decreases |ts|
  {
    if ts == [] then [] else AllOpened(ts[..|ts| - 1]) + Opened(ts[|ts| - 1])
  }

  predicate AcceptedGenuine(sources: map<nat, Source>, r: Received) {
    r.Accepted? && r.body.SegBody? && Genuine(sources, r.body.seg)
  }

  lemma WireGenuine(shots: map<nat, Shot>, wire: seq<Byte>)
    requires Shots(shots) && |wire| >= CRC_SIZE && FromSender(shots, wire)
    ensures AcceptedGenuine(SourcesOf(shots), Receive(wire))
  {
    var fid, i, h, packetId, sendTs, transportSeq :|
      fid in shots && PieceOnWire(shots[fid], wire, i, h, packetId, sendTs, transportSeq);
    PieceAccepted(SourcesOf(shots), shots[fid], i, h, packetId, sendTs, transportSeq);
  }

  lemma AcceptedOpens(sources: map<nat, Source>, t: Coming)
    requires t.Datagram? ==> |t.wire| >= CRC_SIZE
    requires t.Datagram? ==> AcceptedGenuine(sources, Receive(t.wire)) || Receive(t.wire) == Damaged
    ensures AllGenuine(sources, Opened(t))
  {
  }

  lemma {:induction false} AllOpenedGenuine(shots: map<nat, Shot>, ts: seq<Coming>)
    requires Shots(shots) && FromSenderOrDamaged(shots, ts)
    ensures Whole(ts) && AllGenuine(SourcesOf(shots), AllOpened(ts))
    decreases |ts|
  {
    if ts != [] {
      AllOpenedGenuine(shots, ts[..|ts| - 1]);
      var last := ts[|ts| - 1];
      if last.Datagram? && FromSender(shots, last.wire) {
        WireGenuine(shots, last.wire);
      }
      AcceptedOpens(SourcesOf(shots), last);
    }
  }

  /** Datagrams may be lost, repeated, reordered and damaged: every frame all of whose pieces came in undamaged and were
      taken by their paths before it was delivered is the frame that was sent. */
  lemma SentIsDelivered(shots: map<nat, Shot>, traced: bool, ts: seq<Coming>, j: nat)
    requires Shots(shots) && FromSenderOrDamaged(shots, ts)
    ensures Whole(ts) && AllGenuine(SourcesOf(shots), AllOpened(ts))
    ensures j < |Log(SourcesOf(shots), traced, AllOpened(ts))| ==>
              HandedRight(SourcesOf(shots), traced, AllOpened(ts), j,
                          HandedAfter(SourcesOf(shots), traced, AllOpened(ts), j))
  {
    AllOpenedGenuine(shots, ts);
    if j < |Log(SourcesOf(shots), traced, AllOpened(ts))| {
      TakenIsDelivered(SourcesOf(shots), traced, AllOpened(ts), j);
    }
  }

  // ---- datagrams of a sender that numbers its packets ----

  /** The datagram carries the k-th segment handed over, under the number its path gave it. */
  ghost predicate PutOnWire(puts: seq<(nat, Segment)>, wire: seq<Byte>, k: nat, uid: U32, sendTs: U16,
                            transportSeq: U16)
    requires k < |puts| && PieceSized(puts[k].1)
  {
    && puts[k].0 < 0x100 && NumberOf(puts, k) < TWO32
    && wire == EncodeMessage(Header(puts[k].0, uid),
                             SegBody(Addressed(puts[k].1, NumberOf(puts, k), sendTs, transportSeq)))
  }

  predicate PieceSized(seg: Segment) {
    |seg.data| <= SIM_VIDEO_SIZE
  }

  ghost predicate FromPut(puts: seq<(nat, Segment)>, wire: seq<Byte>, k: nat) {
    && k < |puts| && PieceSized(puts[k].1)
    && exists uid, sendTs, transportSeq :: PutOnWire(puts, wire, k, uid, sendTs, transportSeq)
  }

  ghost predicate PutOrDamaged(puts: seq<(nat, Segment)>, t: Coming) {
    t.Datagram? ==> |t.wire| >= CRC_SIZE && (Receive(t.wire) == Damaged || exists k :: FromPut(puts, t.wire, k))
  }

  /** What comes in was handed over by the sender, or is damaged so that the checksum tells. */
  ghost predicate FromPutsOrDamaged(puts: seq<(nat, Segment)>, ts: seq<Coming>) {
    forall n :: 0 <= n < |ts| ==> PutOrDamaged(puts, ts[n])
  }

  predicate IsPut(seg: Segment, put: Segment) {
    seg.fid == put.fid && seg.index == put.index
  }

  ghost predicate ReceivedPut(puts: seq<(nat, Segment)>, r: Received, k: nat)
    requires k < |puts|
  {
    && r.Accepted? && r.header.ver == puts[k].0 && r.body.SegBody?
    && r.body.seg.packetId == NumberOf(puts, k) && IsPut(r.body.seg, puts[k].1)
  }

  lemma PutReceived(shots: map<nat, Shot>, puts: seq<(nat, Segment)>, wire: seq<Byte>, k: nat)
    requires Shots(shots) && AllPieces(shots, puts) && |wire| >= CRC_SIZE && FromPut(puts, wire, k)
    ensures FromSender(shots, wire) && ReceivedPut(puts, Receive(wire), k)
  {
    var uid, sendTs, transportSeq :| PutOnWire(puts, wire, k, uid, sendTs, transportSeq);
    var seg, h, id := puts[k].1, Header(puts[k].0, uid), NumberOf(puts, k);
    assert PieceOf(shots, seg);
    PieceAccepted(SourcesOf(shots), shots[seg.fid], seg.index, h, id, sendTs, transportSeq);
    assert PieceOnWire(shots[seg.fid], wire, seg.index, h, id, sendTs, transportSeq);
  }

  /** The event is the arrival of the k-th segment handed over. */
  ghost predicate OfPut(puts: seq<(nat, Segment)>, e: Event, k: nat) {
    && e.Arrive? && k < |puts| && e.arrival.pid == puts[k].0 && e.arrival.seg.packetId == NumberOf(puts, k)
    && IsPut(e.arrival.seg, puts[k].1)
  }

  lemma PutOpens(puts: seq<(nat, Segment)>, t: Coming, e: Event, k: nat)
    requires t.Datagram? && |t.wire| >= CRC_SIZE && k < |puts| && ReceivedPut(puts, Receive(t.wire), k)
    requires e in Opened(t)
    ensures OfPut(puts, e, k)
  {
  }

  lemma PutsAreSent(shots: map<nat, Shot>, puts: seq<(nat, Segment)>, ts: seq<Coming>)
    requires Shots(shots) && AllPieces(shots, puts) && FromPutsOrDamaged(puts, ts)
    ensures FromSenderOrDamaged(shots, ts) && Whole(ts)
  {
    forall n | 0 <= n < |ts| ensures SentOrDamaged(shots, ts[n]) {
      assert PutOrDamaged(puts, ts[n]);
      if ts[n].Datagram? && Receive(ts[n].wire) != Damaged {
        var k :| FromPut(puts, ts[n].wire, k);
        PutReceived(shots, puts, ts[n].wire, k);
      }
    }
  }

  /** What opens in one datagram is the segment handed over, or nothing. */
  lemma OpenedOfPut(shots: map<nat, Shot>, puts: seq<(nat, Segment)>, t: Coming, e: Event) returns (k: nat)
    requires Shots(shots) && AllPieces(shots, puts) && PutOrDamaged(puts, t) && e in Opened(t) && e.Arrive?
    ensures OfPut(puts, e, k)
  {
    assert Receive(t.wire) != Damaged;
    k :| FromPut(puts, t.wire, k);
    PutReceived(shots, puts, t.wire, k);
    PutOpens(puts, t, e, k);
  }

  lemma {:induction false} AllOpenedOfPuts(shots: map<nat, Shot>, puts: seq<(nat, Segment)>, ts: seq<Coming>, e: Event)
      returns (k: nat)
    requires Shots(shots) && AllPieces(shots, puts) && FromPutsOrDamaged(puts, ts) && Whole(ts)
    requires e in AllOpened(ts) && e.Arrive?
    ensures OfPut(puts, e, k)
    decreases |ts|
  {
    if e in AllOpened(ts[..|ts| - 1]) {
      k := AllOpenedOfPuts(shots, puts, ts[..|ts| - 1], e);
    } else {
      k := OpenedOfPut(shots, puts, ts[|ts| - 1], e);
    }
  }

  lemma PutsInStep(puts: seq<(nat, Segment)>, d: Event, e: Event, a: nat, b: nat)
    requires FramesRise(puts) && OfPut(puts, d, a) && OfPut(puts, e, b)
    ensures InStep(d, e)
  {
    if puts[a].0 == puts[b].0 {
      NumbersRise(puts, a, b);
    }
  }

  /** On every path the ids that come in rise with the frames. */
  lemma PutsAreNumbered(shots: map<nat, Shot>, puts: seq<(nat, Segment)>, ts: seq<Coming>)
    requires Shots(shots) && AllPieces(shots, puts) && FramesRise(puts) && FromPutsOrDamaged(puts, ts) && Whole(ts)
    ensures Numbered(AllOpened(ts))
  {
    var events := AllOpened(ts);
    forall m, n | 0 <= m < |events| && 0 <= n < |events| ensures InStep(events[m], events[n]) {
      if events[m].Arrive? && events[n].Arrive? {
        var a := AllOpenedOfPuts(shots, puts, ts, events[m]);
        var b := AllOpenedOfPuts(shots, puts, ts, events[n]);
        PutsInStep(puts, events[m], events[n], a, b);
      }
    }
  }

  /** What a sender hands over frame by frame and its paths number: a frame is delivered complete, and is the frame that
      was sent, exactly if every piece came in undamaged before and no start of a path cut it off; and if the paths
      start in order, exactly if every piece came in undamaged before. */
  lemma SentOverPaths(shots: map<nat, Shot>, puts: seq<(nat, Segment)>, traced: bool, ts: seq<Coming>, j: nat)
    requires Shots(shots) && AllPieces(shots, puts) && FramesRise(puts) && FromPutsOrDamaged(puts, ts)
    ensures Whole(ts) && AllGenuine(SourcesOf(shots), AllOpened(ts))
    ensures var sources, events := SourcesOf(shots), AllOpened(ts);
            j < |Log(sources, traced, events)| ==>
              var d, m := Log(sources, traced, events)[j], HandedAfter(sources, traced, events, j);
              && HandedBy(sources, traced, events, j, m) && d.fid in shots
              && (d.recv == d.total <==> AllReached(sources, traced, events[..m], d.fid))
              && (d.recv == d.total ==> d.data == shots[d.fid].data)
              && (StartsInOrder(events) ==> (d.recv == d.total <==> AllCame(sources, events[..m], d.fid)))
  {
    var sources, events := SourcesOf(shots), AllOpened(ts);
    PutsAreSent(shots, puts, ts);
    AllOpenedGenuine(shots, ts);
    PutsAreNumbered(shots, puts, ts);
    if j < |Log(sources, traced, events)| {
      OnlyStartsCost(sources, traced, events, j);
      if StartsInOrder(events) {
        InOrderStartsCostNothing(sources, traced, events, j);
      }
    }
  }
}
