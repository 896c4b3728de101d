/** The paths in front of the frame layer: of the segments that come in on a path, its tables pass some on, and what
    the frame layer then consumes changes the tables again. */
module PathLayer {
  import opened Consumption
  import opened Fidelity
  import opened Reassembly
  import opened Receiving
  import opened Splitting
  import P = PathReceiver

  /** What a path has seen when the frame layer has heard h. */
  ghost function SeenOn(sources: Sources, traced: bool, h: seq<Event>, pid: nat): P.History
    requires AllGenuine(sources, h)
  {
    P.Run(P.NOTHING_SEEN, PathEvents(sources, traced, h, pid))
  }

  /** The path passes the segment on to the frame layer, which has heard h so far. */
  ghost predicate Taken(sources: Sources, traced: bool, h: seq<Event>, a: Arrival)
    requires AllGenuine(sources, h)
  {
    P.Passes(SeenOn(sources, traced, h, a.pid).seen, a.seg.packetId)
  }

  /** What the frame layer is told of it. */
  ghost function PassedOn(sources: Sources, traced: bool, h: seq<Event>, e: Event): seq<Event>
    requires AllGenuine(sources, h)
  {
    if e.Arrive? && !Taken(sources, traced, h, e.arrival) then [] else [e]
  }

  /** All that the frame layer hears. */
  ghost function Heard(sources: Sources, traced: bool, ts: seq<Event>): (h: seq<Event>)
    requires AllGenuine(sources, ts)
    ensures AllGenuine(sources, h)
    decreases |ts|
  {
    if ts == [] then []
    else
      var h := Heard(sources, traced, ts[..|ts| - 1]);
      h + PassedOn(sources, traced, h, ts[|ts| - 1])
  }

  // ---- what is delivered of what was taken ----

  predicate Brings(e: Event, fid: nat, i: nat) {
    e.Arrive? && e.arrival.seg.fid == fid && e.arrival.seg.index == i
  }

  /** Piece i of a frame came in, and its path took it. */
  ghost predicate PieceTaken(sources: Sources, traced: bool, ts: seq<Event>, fid: nat, i: nat)
    requires AllGenuine(sources, ts)
    decreases |ts|
  {
    ts != []
    && var front, last := ts[..|ts| - 1], ts[|ts| - 1];
       || PieceTaken(sources, traced, front, fid, i)
       || (Brings(last, fid, i) && Taken(sources, traced, Heard(sources, traced, front), last.arrival))
  }

  /** Every piece of the frame came in and was taken by its path. */
  ghost predicate AllTaken(sources: Sources, traced: bool, ts: seq<Event>, fid: nat)
    requires AllGenuine(sources, ts) && fid in sources
  {
    forall i :: 0 <= i < |Cut(sources[fid].data)| ==> PieceTaken(sources, traced, ts, fid, i)
  }

  lemma ArrivedNext(h: seq<Event>, more: seq<Event>, fid: nat, i: nat)
    ensures PieceArrived(h + more, fid, i) <==> PieceArrived(h, fid, i) || PieceArrived(more, fid, i)
  {
    if PieceArrived(h, fid, i) {
      var k :| 0 <= k < |h| && ArrivalFor(h[k], fid, i).Full?;
      assert ArrivalFor((h + more)[k], fid, i).Full?;
    }
    if PieceArrived(more, fid, i) {
      var k :| 0 <= k < |more| && ArrivalFor(more[k], fid, i).Full?;
      assert ArrivalFor((h + more)[|h| + k], fid, i).Full?;
    }
    if PieceArrived(h + more, fid, i) {
      var k :| 0 <= k < |h + more| && ArrivalFor((h + more)[k], fid, i).Full?;
      if k < |h| {
        assert ArrivalFor(h[k], fid, i).Full?;
      } else {
        assert ArrivalFor(more[k - |h|], fid, i).Full?;
      }
    }
  }

  lemma ArrivesIff(sources: Sources, traced: bool, h: seq<Event>, e: Event, fid: nat, i: nat)
    requires AllGenuine(sources, h)
    ensures PieceArrived(PassedOn(sources, traced, h, e), fid, i)
       <==> Brings(e, fid, i) && Taken(sources, traced, h, e.arrival)
  {
    if Brings(e, fid, i) && Taken(sources, traced, h, e.arrival) {
      assert ArrivalFor(PassedOn(sources, traced, h, e)[0], fid, i).Full?;
    }
  }

  lemma {:induction false} TakenIff(sources: Sources, traced: bool, ts: seq<Event>, fid: nat, i: nat)
    requires AllGenuine(sources, ts)
    ensures PieceTaken(sources, traced, ts, fid, i) <==> PieceArrived(Heard(sources, traced, ts), fid, i)
    decreases |ts|
  {
    if ts != [] {
      var front, last := ts[..|ts| - 1], ts[|ts| - 1];
      var h := Heard(sources, traced, front);
      TakenIff(sources, traced, front, fid, i);
      ArrivesIff(sources, traced, h, last, fid, i);
      ArrivedNext(h, PassedOn(sources, traced, h, last), fid, i);
    }
  }

  lemma AllTakenIff(sources: Sources, traced: bool, ts: seq<Event>, fid: nat)
    requires AllGenuine(sources, ts) && fid in sources
    ensures AllTaken(sources, traced, ts, fid) <==> AllArrived(sources, Heard(sources, traced, ts), fid)
  {
    forall i | 0 <= i < |Cut(sources[fid].data)|
      ensures PieceTaken(sources, traced, ts, fid, i) <==> PieceArrived(Heard(sources, traced, ts), fid, i)
    {
      TakenIff(sources, traced, ts, fid, i);
    }
  }

  /** The receiver with a sink. */
  ghost function After(sources: Sources, traced: bool, ts: seq<Event>): State
    requires AllGenuine(sources, ts)
  {
    Run(sources, true, traced, Heard(sources, traced, ts))
  }

  /** What it has handed over. */
  ghost function Log(sources: Sources, traced: bool, ts: seq<Event>): seq<Delivery>
    requires AllGenuine(sources, ts)
  {
    After(sources, traced, ts).delivered
  }

  lemma LogGrows(sources: Sources, traced: bool, ts: seq<Event>)
    requires AllGenuine(sources, ts) && ts != []
    ensures DeliversNow(sources, Heard(sources, traced, ts), Log(sources, traced, ts[..|ts| - 1]),
                        Log(sources, traced, ts))
    ensures After(sources, traced, ts[..|ts| - 1]).minFid <= After(sources, traced, ts).minFid
    ensures OnlyAbove(Log(sources, traced, ts), |Log(sources, traced, ts[..|ts| - 1])|,
                      After(sources, traced, ts[..|ts| - 1]).minFid)
  {
    var front, last := ts[..|ts| - 1], ts[|ts| - 1];
    var h := Heard(sources, traced, ts);
    if PassedOn(sources, traced, Heard(sources, traced, front), last) == [] {
      assert h == Heard(sources, traced, front);
    } else {
      assert h[..|h| - 1] == Heard(sources, traced, front);
      EventDelivers(sources, traced, h);
      EventAbove(sources, traced, h);
    }
  }

  /** The number of events after which the j-th delivery was made. */
  ghost function HandedAfter(sources: Sources, traced: bool, ts: seq<Event>, j: nat): nat
    requires AllGenuine(sources, ts)
    decreases |ts|
  {
    if ts == [] || j >= |Log(sources, traced, ts[..|ts| - 1])| then |ts|
    else HandedAfter(sources, traced, ts[..|ts| - 1], j)
  }

  /** The m-th event made the j-th delivery. */
  ghost predicate HandedBy(sources: Sources, traced: bool, ts: seq<Event>, j: nat, m: nat)
    requires AllGenuine(sources, ts) && j < |Log(sources, traced, ts)|
  {
    && 0 < m <= |ts|
    && |Log(sources, traced, ts[..m - 1])| <= j < |Log(sources, traced, ts[..m])|
    && Log(sources, traced, ts[..m])[j] == Log(sources, traced, ts)[j]
  }

  /** It is as complete as what its paths had taken by then; and if that was every piece, or the frame must be whole,
      it is byte for byte the frame that was sent. */
  ghost predicate HandedRight(sources: Sources, traced: bool, ts: seq<Event>, j: nat, m: nat)
    requires AllGenuine(sources, ts) && j < |Log(sources, traced, ts)|
  {
    var d := Log(sources, traced, ts)[j];
    && HandedBy(sources, traced, ts, j, m) && d.fid in sources
    && (d.recv == d.total <==> AllTaken(sources, traced, ts[..m], d.fid))
    && (AllTaken(sources, traced, ts[..m], d.fid) || sources[d.fid].ftype == 1 ==> d.data == sources[d.fid].data)
  }

  lemma HandedNow(sources: Sources, traced: bool, ts: seq<Event>, j: nat)
    requires AllGenuine(sources, ts) && ts != []
    requires |Log(sources, traced, ts[..|ts| - 1])| <= j < |Log(sources, traced, ts)|
    ensures HandedRight(sources, traced, ts, j, |ts|)
  {
    LogGrows(sources, traced, ts);
    var d := Log(sources, traced, ts)[j];
    DeliveredIsOriginal(sources, Heard(sources, traced, ts), d);
    AllTakenIff(sources, traced, ts, d.fid);
    assert ts[..|ts|] == ts;
  }

  lemma HandedBefore(sources: Sources, traced: bool, ts: seq<Event>, j: nat, m: nat)
    requires AllGenuine(sources, ts) && ts != []
    requires j < |Log(sources, traced, ts[..|ts| - 1])| && HandedRight(sources, traced, ts[..|ts| - 1], j, m)
    ensures j < |Log(sources, traced, ts)| && HandedRight(sources, traced, ts, j, m)
  {
    LogGrows(sources, traced, ts);
    var front := ts[..|ts| - 1];
    assert front[..m] == ts[..m] && front[..m - 1] == ts[..m - 1];
  }

  /** Over every run every frame all of whose pieces were taken by their paths before it was delivered, and any frame
      delivered that must be whole, is the frame that was sent. */
  lemma {:induction false} TakenIsDelivered(sources: Sources, traced: bool, ts: seq<Event>, j: nat)
    requires AllGenuine(sources, ts) && j < |Log(sources, traced, ts)|
    ensures HandedRight(sources, traced, ts, j, HandedAfter(sources, traced, ts, j))
    decreases |ts|
  {
    if ts != [] && j < |Log(sources, traced, ts[..|ts| - 1])| {
      TakenIsDelivered(sources, traced, ts[..|ts| - 1], j);
      HandedBefore(sources, traced, ts, j, HandedAfter(sources, traced, ts[..|ts| - 1], j));
    } else {
      assert ts != [];
      HandedNow(sources, traced, ts, j);
    }
  }
}
