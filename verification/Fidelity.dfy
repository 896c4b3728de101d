/** End to end: what the receiver delivers against what the sender sent, over every
    run of genuine traffic - any order, any duplication, any paths. */
module Fidelity {
  import opened Ordered
  import opened Reassembly
  import opened Receiving
  import opened SegmentCodec
  import opened Splitting

  /** A segment comes in, or the heartbeat looks for frames to deliver. */
  datatype Event = Arrive(arrival: Arrival) | Tick(now: nat)

  type Sources = map<nat, Source>

  ghost predicate AllGenuine(sources: Sources, h: seq<Event>) {
    forall k :: 0 <= k < |h| && h[k].Arrive? ==> Genuine(sources, h[k].arrival.seg)
  }

  // ---- cached frames hold their own pieces ----

  ghost predicate Held(sources: Sources, fid: nat, f: Frame) {
    HoldsPieces(sources, fid, f.packets) && f.frameType == sources[fid].ftype
  }

  ghost predicate CacheHeld(sources: Sources, cache: map<nat, Frame>) {
    forall fid :: fid in cache ==> Held(sources, fid, cache[fid])
  }

  lemma FrameForHeld(sources: Sources, cache: map<nat, Frame>, seg: Segment)
    requires CacheHeld(sources, cache) && Genuine(sources, seg)
    ensures Held(sources, seg.fid, FrameFor(cache, seg)) && Fits(cache, seg)
  {
    if seg.fid in cache {
      assert Held(sources, seg.fid, cache[seg.fid]);
    }
  }

  lemma FilledHeld(sources: Sources, f: Frame, a: Arrival, traced: bool)
    requires Held(sources, a.seg.fid, f) && Genuine(sources, a.seg) && a.seg.index < |f.packets|
    ensures Held(sources, a.seg.fid, Filled(f, a, traced))
  {
  }

  lemma {:induction false} DrainHeld(sources: Sources, st: State, now: nat)
    requires CacheHeld(sources, st.cache)
    ensures CacheHeld(sources, Drain(st, now).cache)
    decreases |st.cache|
  {
    if HeadReady(st, now) {
      HeadShrinks(st);
      DrainHeld(sources, TakeHead(st), now);
    }
  }

  lemma TakeHeld(sources: Sources, st: State, a: Arrival)
    requires CacheHeld(sources, st.cache) && Genuine(sources, a.seg)
    ensures Fits(st.cache, a.seg) && CacheHeld(sources, Take(st, a).cache)
  {
    FrameForHeld(sources, st.cache, a.seg);
    if !Unwanted(st, a.seg) {
      FilledHeld(sources, FrameFor(st.cache, a.seg), a, st.traced);
      DrainHeld(sources, Store(st, a), a.now);
    }
  }

  function Start(sink: bool, traced: bool): State {
    State(map[], 0, 0, 2, 2, sink, traced, [], [], 0)
  }

  /** The receiver after any run of genuine traffic. */
  ghost function Run(sources: Sources, sink: bool, traced: bool, h: seq<Event>): (st: State)
    requires AllGenuine(sources, h)
    ensures CacheHeld(sources, st.cache)
    decreases |h|
  {
    if h == [] then Start(sink, traced)
    else
      var st := Run(sources, sink, traced, h[..|h| - 1]);
      match h[|h| - 1]
      case Arrive(a) =>
        TakeHeld(sources, st, a);
        Take(st, a)
      case Tick(now) =>
        DrainHeld(sources, st, now);
        Drain(st, now)
  }

  /** Over every run: ids delivered rise strictly, every cached frame is above the late
      mark, and bytes and buffers add up. */
  lemma {:induction false} RunGood(sources: Sources, sink: bool, traced: bool, h: seq<Event>)
    requires AllGenuine(sources, h)
    ensures Good(Run(sources, sink, traced, h))
    decreases |h|
  {
    if h != [] {
      var front := h[..|h| - 1];
      RunGood(sources, sink, traced, front);
      var st := Run(sources, sink, traced, front);
      match h[|h| - 1]
      case Arrive(a) =>
        FrameForHeld(sources, st.cache, a.seg);
        TakeGood(st, a);
      case Tick(now) => DrainGood(st, now);
    }
  }

  // ---- what arrived first ----

  /** The first packet to arrive for a place in a frame. */
  ghost function FirstArrival(h: seq<Event>, fid: nat, i: nat): Slot {
    if h == [] then Empty
    else
      var before := FirstArrival(h[..|h| - 1], fid, i);
      if before.Full? then before else ArrivalFor(h[|h| - 1], fid, i)
  }

  ghost function ArrivalFor(e: Event, fid: nat, i: nat): Slot {
    if e.Arrive? && e.arrival.seg.fid == fid && e.arrival.seg.index == i
    then Full(Packet(e.arrival.pid, e.arrival.seg)) else Empty
  }

  /** All that had arrived of a frame. */
  ghost function Arrived(sources: Sources, h: seq<Event>, fid: nat): (ps: seq<Slot>)
    requires fid in sources
  {
    seq(|Cut(sources[fid].data)|, i requires i >= 0 => FirstArrival(h, fid, i))
  }

  /** A cached frame is what arrived of it; of a frame that is neither cached nor behind the late mark, nothing did. */
  ghost predicate Mirrors(sources: Sources, h: seq<Event>, cache: map<nat, Frame>, minFid: nat) {
    forall fid :: fid in sources && fid > minFid ==> MirrorsFrame(sources, h, cache, fid)
  }

  ghost predicate MirrorsFrame(sources: Sources, h: seq<Event>, cache: map<nat, Frame>, fid: nat)
    requires fid in sources
  {
    if fid in cache then cache[fid].packets == Arrived(sources, h, fid)
    else forall s :: s in Arrived(sources, h, fid) ==> s.Empty?
  }

  /** A delivery hands over exactly what had arrived of the frame after events h - all of
      it, if the frame is of the type that must be whole. */
  ghost predicate DeliveredAt(sources: Sources, h: seq<Event>, d: Delivery) {
    && d.fid in sources
    && var ps := Arrived(sources, h, d.fid);
       && d.data == Payload(ps) && d.recv == Present(ps) && d.total == |ps|
       && (sources[d.fid].ftype == 1 ==> d.recv == d.total)
  }

  ghost predicate Faithful(sources: Sources, h: seq<Event>, st: State) {
    && st.sink
    && Good(st)
    && CacheHeld(sources, st.cache)
    && Mirrors(sources, h, st.cache, st.minFid)
  }

  lemma HeadDelivered(sources: Sources, h: seq<Event>, st: State, now: nat)
    requires Faithful(sources, h, st) && HeadReady(st, now)
    ensures var fid := Least(st.cache.Keys); DeliveredAt(sources, h, Handed(fid, st.cache[fid]))
  {
    var fid := Least(st.cache.Keys);
    assert FrameOk(fid, st.cache[fid]) && Held(sources, fid, st.cache[fid]);
    assert MirrorsFrame(sources, h, st.cache, fid);
  }

  lemma TakeHeadMirrors(sources: Sources, h: seq<Event>, st: State)
    requires Mirrors(sources, h, st.cache, st.minFid) && st.cache != map[] && st.sink
    ensures Mirrors(sources, h, TakeHead(st).cache, TakeHead(st).minFid)
  {
    forall k | k in sources && k > TakeHead(st).minFid ensures MirrorsFrame(sources, h, TakeHead(st).cache, k) {
      assert MirrorsFrame(sources, h, st.cache, k);
    }
  }

  lemma TakeHeadFaithful(sources: Sources, h: seq<Event>, st: State, now: nat)
    requires Faithful(sources, h, st) && HeadReady(st, now)
    ensures Faithful(sources, h, TakeHead(st))
  {
    TakeHeadGood(st);
    TakeHeadMirrors(sources, h, st);
  }

  lemma {:induction false} DrainFaithful(sources: Sources, h: seq<Event>, st: State, now: nat)
    requires Faithful(sources, h, st)
    ensures Faithful(sources, h, Drain(st, now))
    decreases |st.cache|
  {
    if HeadReady(st, now) {
      TakeHeadFaithful(sources, h, st, now);
      HeadShrinks(st);
      DrainFaithful(sources, h, TakeHead(st), now);
    }
  }

  lemma ArrivedNext(sources: Sources, h: seq<Event>, e: Event, fid: nat)
    requires fid in sources
    ensures !e.Arrive? || e.arrival.seg.fid != fid ==> Arrived(sources, h + [e], fid) == Arrived(sources, h, fid)
    ensures e.Arrive? && e.arrival.seg.fid == fid && e.arrival.seg.index < |Cut(sources[fid].data)| ==>
              var i := e.arrival.seg.index;
              var ps := Arrived(sources, h, fid);
              Arrived(sources, h + [e], fid)
              == if ps[i].Full? then ps else ps[i := Full(Packet(e.arrival.pid, e.arrival.seg))]
  {
    assert (h + [e])[..|h|] == h;
  }

  lemma TickMirrors(sources: Sources, h: seq<Event>, st: State, now: nat)
    requires Mirrors(sources, h, st.cache, st.minFid)
    ensures Mirrors(sources, h + [Tick(now)], st.cache, st.minFid)
  {
    forall fid | fid in sources && fid > st.minFid ensures MirrorsFrame(sources, h + [Tick(now)], st.cache, fid) {
      ArrivedNext(sources, h, Tick(now), fid);
      assert MirrorsFrame(sources, h, st.cache, fid);
    }
  }

  lemma UnwantedMirrors(sources: Sources, h: seq<Event>, st: State, a: Arrival)
    requires Mirrors(sources, h, st.cache, st.minFid) && Genuine(sources, a.seg)
    requires Fits(st.cache, a.seg) && Unwanted(st, a.seg)
    ensures Mirrors(sources, h + [Arrive(a)], st.cache, st.minFid)
  {
    forall fid | fid in sources && fid > st.minFid ensures MirrorsFrame(sources, h + [Arrive(a)], st.cache, fid) {
      ArrivedNext(sources, h, Arrive(a), fid);
      assert MirrorsFrame(sources, h, st.cache, fid);
    }
  }

  lemma StoreMirrors(sources: Sources, h: seq<Event>, st: State, a: Arrival)
    requires Mirrors(sources, h, st.cache, st.minFid) && Genuine(sources, a.seg)
    requires Fits(st.cache, a.seg) && !Unwanted(st, a.seg)
    ensures Mirrors(sources, h + [Arrive(a)], Store(st, a).cache, st.minFid)
  {
    var cache := Store(st, a).cache;
    forall fid | fid in sources && fid > st.minFid ensures MirrorsFrame(sources, h + [Arrive(a)], cache, fid) {
      ArrivedNext(sources, h, Arrive(a), fid);
      assert MirrorsFrame(sources, h, st.cache, fid);
      if fid == a.seg.fid && fid !in st.cache {
        var ps := Arrived(sources, h, fid);
        assert forall i :: 0 <= i < |ps| ==> ps[i] in ps;
        assert NewFrame(a.seg).packets == ps;
      }
    }
  }

  lemma StoreFaithful(sources: Sources, h: seq<Event>, st: State, a: Arrival)
    requires Faithful(sources, h, st) && Genuine(sources, a.seg)
    requires Fits(st.cache, a.seg) && !Unwanted(st, a.seg)
    ensures Faithful(sources, h + [Arrive(a)], Store(st, a))
  {
    FrameForHeld(sources, st.cache, a.seg);
    FilledHeld(sources, FrameFor(st.cache, a.seg), a, st.traced);
    StoreMirrors(sources, h, st, a);
    StoreGood(st, a);
  }

  lemma TickFaithful(sources: Sources, h: seq<Event>, st: State, now: nat)
    requires Faithful(sources, h, st)
    ensures Faithful(sources, h + [Tick(now)], st)
  {
    TickMirrors(sources, h, st, now);
  }

  lemma TakeFaithful(sources: Sources, h: seq<Event>, st: State, a: Arrival)
    requires Faithful(sources, h, st) && Genuine(sources, a.seg)
    ensures Fits(st.cache, a.seg) && Faithful(sources, h + [Arrive(a)], Take(st, a))
  {
    FrameForHeld(sources, st.cache, a.seg);
    if Unwanted(st, a.seg) {
      UnwantedMirrors(sources, h, st, a);
    } else {
      StoreFaithful(sources, h, st, a);
      DrainFaithful(sources, h + [Arrive(a)], Store(st, a), a.now);
    }
  }

  /** Over every run with a sink, the cache mirrors what arrived. */
  lemma {:induction false} RunFaithful(sources: Sources, traced: bool, h: seq<Event>)
    requires AllGenuine(sources, h)
    ensures Faithful(sources, h, Run(sources, true, traced, h))
    decreases |h|
  {
    if h == [] {
      assert Mirrors(sources, h, map[], 0);
      RunGood(sources, true, traced, h);
    } else {
      var front := h[..|h| - 1];
      assert h == front + [h[|h| - 1]];
      RunFaithful(sources, traced, front);
      var st := Run(sources, true, traced, front);
      match h[|h| - 1]
      case Arrive(a) => TakeFaithful(sources, front, st, a);
      case Tick(now) =>
        TickFaithful(sources, front, st, now);
        DrainFaithful(sources, h, st, now);
    }
  }

  // ---- what every event delivers ----

  /** The log grows by deliveries of exactly what had arrived after events h. */
  ghost predicate DeliversNow(sources: Sources, h: seq<Event>, before: seq<Delivery>, log: seq<Delivery>) {
    && before <= log
    && forall j :: |before| <= j < |log| ==> DeliveredAt(sources, h, log[j])
  }

  lemma DeliversOn(sources: Sources, h: seq<Event>, before: seq<Delivery>, d: Delivery, log: seq<Delivery>)
    requires DeliveredAt(sources, h, d) && DeliversNow(sources, h, before + [d], log)
    ensures DeliversNow(sources, h, before, log)
  {
    assert log[|before|] == (before + [d])[|before|];
    assert before == (before + [d])[..|before|] == log[..|before|];
  }

  lemma {:induction false} DrainDelivers(sources: Sources, h: seq<Event>, st: State, now: nat)
    requires Faithful(sources, h, st)
    ensures DeliversNow(sources, h, st.delivered, Drain(st, now).delivered)
    decreases |st.cache|
  {
    if HeadReady(st, now) {
      var fid := Least(st.cache.Keys);
      TakeHeadFaithful(sources, h, st, now);
      HeadDelivered(sources, h, st, now);
      HeadShrinks(st);
      DrainDelivers(sources, h, TakeHead(st), now);
      DeliversOn(sources, h, st.delivered, Handed(fid, st.cache[fid]), Drain(st, now).delivered);
    }
  }

  lemma TakeDelivers(sources: Sources, h: seq<Event>, st: State, a: Arrival)
    requires Faithful(sources, h, st) && Genuine(sources, a.seg)
    ensures Fits(st.cache, a.seg)
    ensures DeliversNow(sources, h + [Arrive(a)], st.delivered, Take(st, a).delivered)
  {
    FrameForHeld(sources, st.cache, a.seg);
    if !Unwanted(st, a.seg) {
      StoreFaithful(sources, h, st, a);
      DrainDelivers(sources, h + [Arrive(a)], Store(st, a), a.now);
    }
  }

  lemma TickDelivers(sources: Sources, h: seq<Event>, st: State, now: nat)
    requires Faithful(sources, h, st)
    ensures DeliversNow(sources, h + [Tick(now)], st.delivered, Drain(st, now).delivered)
  {
    TickFaithful(sources, h, st, now);
    DrainDelivers(sources, h + [Tick(now)], st, now);
  }

  /** Every event adds to the log just what had arrived of the frames it delivers, the event itself included. */
  lemma EventDelivers(sources: Sources, traced: bool, h: seq<Event>)
    requires AllGenuine(sources, h) && h != []
    ensures DeliversNow(sources, h, Run(sources, true, traced, h[..|h| - 1]).delivered,
                        Run(sources, true, traced, h).delivered)
  {
    var front, last := h[..|h| - 1], h[|h| - 1];
    assert h == front + [last];
    RunFaithful(sources, traced, front);
    var st := Run(sources, true, traced, front);
    match last
    case Arrive(a) => TakeDelivers(sources, front, st, a);
    case Tick(now) => TickDelivers(sources, front, st, now);
  }

  /** The number of events after which the j-th delivery was made. */
  ghost function DeliveredAfter(sources: Sources, traced: bool, h: seq<Event>, j: nat): nat
    requires AllGenuine(sources, h)
    decreases |h|
  {
    if h == [] || j >= |Run(sources, true, traced, h[..|h| - 1]).delivered| then |h|
    else DeliveredAfter(sources, traced, h[..|h| - 1], j)
  }

  /** The log after k events. */
  ghost function LogAfter(sources: Sources, traced: bool, h: seq<Event>, k: nat): seq<Delivery>
    requires AllGenuine(sources, h) && k <= |h|
  {
    Run(sources, true, traced, h[..k]).delivered
  }

  /** The event that made the j-th delivery delivered what had arrived by then, and nothing changed that since. */
  ghost predicate DeliveredBy(sources: Sources, traced: bool, h: seq<Event>, j: nat, k: nat)
    requires AllGenuine(sources, h) && j < |Run(sources, true, traced, h).delivered|
  {
    && 0 < k <= |h|
    && |LogAfter(sources, traced, h, k - 1)| <= j < |LogAfter(sources, traced, h, k)|
    && Run(sources, true, traced, h).delivered[j] == LogAfter(sources, traced, h, k)[j]
    && DeliveredAt(sources, h[..k], Run(sources, true, traced, h).delivered[j])
  }

  lemma EarlierLog(sources: Sources, traced: bool, h: seq<Event>, k: nat)
    requires AllGenuine(sources, h) && h != [] && k < |h|
    ensures LogAfter(sources, traced, h, k) == LogAfter(sources, traced, h[..|h| - 1], k)
    ensures h[..|h| - 1][..k] == h[..k]
  {
    assert h[..|h| - 1][..k] == h[..k];
  }

  /** Over every run with a sink every delivery is exactly what had arrived of its frame when it was made. */
  lemma {:induction false} RunDelivers(sources: Sources, traced: bool, h: seq<Event>, j: nat)
    requires AllGenuine(sources, h) && j < |Run(sources, true, traced, h).delivered|
    ensures DeliveredBy(sources, traced, h, j, DeliveredAfter(sources, traced, h, j))
    decreases |h|
  {
    var front := h[..|h| - 1];
    assert h[..|h|] == h;
    EventDelivers(sources, traced, h);
    if j < |Run(sources, true, traced, front).delivered| {
      var k := DeliveredAfter(sources, traced, front, j);
      RunDelivers(sources, traced, front, j);
      EarlierLog(sources, traced, h, k);
      EarlierLog(sources, traced, h, k - 1);
    }
  }

  /** Piece i of a frame has come in. */
  ghost predicate PieceArrived(h: seq<Event>, fid: nat, i: nat) {
    exists k :: 0 <= k < |h| && ArrivalFor(h[k], fid, i).Full?
  }

  /** Every piece of the frame has come in. */
  ghost predicate AllArrived(sources: Sources, h: seq<Event>, fid: nat)
    requires fid in sources
  {
    forall i :: 0 <= i < |Cut(sources[fid].data)| ==> PieceArrived(h, fid, i)
  }

  lemma {:induction false} FirstArrivalIff(h: seq<Event>, fid: nat, i: nat)
    ensures FirstArrival(h, fid, i).Full? <==> PieceArrived(h, fid, i)
    decreases |h|
  {
    if h != [] {
      var front := h[..|h| - 1];
      FirstArrivalIff(front, fid, i);
      if PieceArrived(front, fid, i) {
        var k :| 0 <= k < |front| && ArrivalFor(front[k], fid, i).Full?;
        assert ArrivalFor(h[k], fid, i).Full?;
      }
      if PieceArrived(h, fid, i) {
        var k :| 0 <= k < |h| && ArrivalFor(h[k], fid, i).Full?;
        if k < |front| {
          assert ArrivalFor(front[k], fid, i).Full?;
        }
      }
    }
  }

  lemma AllArrivedIff(sources: Sources, h: seq<Event>, fid: nat)
    requires fid in sources
    ensures AllArrived(sources, h, fid) <==> Present(Arrived(sources, h, fid)) == |Arrived(sources, h, fid)|
  {
    var ps := Arrived(sources, h, fid);
    AllPresent(ps);
    forall i | 0 <= i < |ps| ensures ps[i].Full? <==> PieceArrived(h, fid, i) {
      FirstArrivalIff(h, fid, i);
    }
  }

  /** The slots of what arrived hold pieces of the frame. */
  lemma {:induction false} FirstArrivalGenuine(sources: Sources, h: seq<Event>, fid: nat, i: nat)
    requires AllGenuine(sources, h)
    ensures SlotFits(fid, i, FirstArrival(h, fid, i)) && SlotGenuine(sources, FirstArrival(h, fid, i))
    decreases |h|
  {
    if h != [] {
      FirstArrivalGenuine(sources, h[..|h| - 1], fid, i);
    }
  }

  lemma ArrivedHolds(sources: Sources, h: seq<Event>, fid: nat)
    requires AllGenuine(sources, h) && fid in sources
    ensures HoldsPieces(sources, fid, Arrived(sources, h, fid))
  {
    var ps := Arrived(sources, h, fid);
    forall i | 0 <= i < |ps| ensures SlotFits(fid, i, ps[i]) && SlotGenuine(sources, ps[i]) {
      FirstArrivalGenuine(sources, h, fid, i);
    }
  }

  /** A delivery of what had arrived is the frame that was sent, if all pieces had. */
  lemma DeliveredIsOriginal(sources: Sources, h: seq<Event>, d: Delivery)
    requires AllGenuine(sources, h) && DeliveredAt(sources, h, d)
    ensures d.recv == d.total <==> AllArrived(sources, h, d.fid)
    ensures AllArrived(sources, h, d.fid) || sources[d.fid].ftype == 1 ==> d.data == sources[d.fid].data
  {
    var ps := Arrived(sources, h, d.fid);
    AllArrivedIff(sources, h, d.fid);
    ArrivedHolds(sources, h, d.fid);
    if Present(ps) == |ps| {
      CompleteIsOriginal(sources, d.fid, ps);
    }
  }

  /** A frame all of whose pieces came in before it was delivered, and any frame delivered that must be whole,
      is the frame that was sent, byte for byte; and a frame is delivered as complete just when all came in. */
  lemma FrameFidelity(sources: Sources, traced: bool, h: seq<Event>, j: nat)
    requires AllGenuine(sources, h) && j < |Run(sources, true, traced, h).delivered|
    ensures var d, k := Run(sources, true, traced, h).delivered[j], DeliveredAfter(sources, traced, h, j);
            && d.fid in sources && DeliveredBy(sources, traced, h, j, k)
            && (d.recv == d.total <==> AllArrived(sources, h[..k], d.fid))
            && (AllArrived(sources, h[..k], d.fid) || sources[d.fid].ftype == 1 ==> d.data == sources[d.fid].data)
  {
    RunDelivers(sources, traced, h, j);
    var k := DeliveredAfter(sources, traced, h, j);
    DeliveredIsOriginal(sources, h[..k], Run(sources, true, traced, h).delivered[j]);
  }

  ghost predicate HeadIncomplete(st: State) {
    st.cache != map[] ==> var f := st.cache[Least(st.cache.Keys)]; f.recv != f.total
  }

  /** No complete frame is ever kept waiting, except behind a frame that is not complete. */
  lemma {:induction false} RunPrompt(sources: Sources, sink: bool, traced: bool, h: seq<Event>)
    requires AllGenuine(sources, h)
    ensures HeadIncomplete(Run(sources, sink, traced, h))
    decreases |h|
  {
    if h != [] {
      var front := h[..|h| - 1];
      RunPrompt(sources, sink, traced, front);
      RunGood(sources, sink, traced, front);
      var st := Run(sources, sink, traced, front);
      match h[|h| - 1]
      case Arrive(a) =>
        FrameForHeld(sources, st.cache, a.seg);
        TakeGood(st, a);
      case Tick(now) => DrainGood(st, now);
    }
  }

  /** The last event delivers only frames above the late mark, which never falls. */
  lemma EventAbove(sources: Sources, traced: bool, h: seq<Event>)
    requires AllGenuine(sources, h) && h != []
    ensures var st, next := Run(sources, true, traced, h[..|h| - 1]), Run(sources, true, traced, h);
            && st.minFid <= next.minFid
            && OnlyAbove(next.delivered, |st.delivered|, st.minFid)
  {
    var front := h[..|h| - 1];
    RunGood(sources, true, traced, front);
    var st := Run(sources, true, traced, front);
    match h[|h| - 1]
    case Arrive(a) =>
      FrameForHeld(sources, st.cache, a.seg);
      if !Unwanted(st, a.seg) {
        StoreGood(st, a);
        DrainAbove(Store(st, a), a.now);
      }
    case Tick(now) => DrainAbove(st, now);
  }

  // ---- what the paths are told to consume ----

  /** A packet came in on a path with this id, for this frame. */
  predicate BringsId(e: Event, id: (nat, nat), fid: nat) {
    e.Arrive? && (e.arrival.pid, e.arrival.seg.packetId) == id && e.arrival.seg.fid == fid
  }

  ghost predicate CameInFor(h: seq<Event>, id: (nat, nat), fid: nat) {
    exists k :: 0 <= k < |h| && BringsId(h[k], id, fid)
  }

  lemma CameInStill(h: seq<Event>, e: Event, id: (nat, nat), fid: nat)
    requires CameInFor(h, id, fid)
    ensures CameInFor(h + [e], id, fid)
  {
    var k :| 0 <= k < |h| && BringsId(h[k], id, fid);
    assert BringsId((h + [e])[k], id, fid);
  }

  lemma {:induction false} FirstArrivalCameIn(h: seq<Event>, fid: nat, i: nat)
    requires FirstArrival(h, fid, i).Full?
    ensures var p := FirstArrival(h, fid, i).packet; CameInFor(h, (p.pid, p.seg.packetId), fid)
    decreases |h|
  {
    var front, last := h[..|h| - 1], h[|h| - 1];
    assert h == front + [last];
    if FirstArrival(front, fid, i).Full? {
      FirstArrivalCameIn(front, fid, i);
      var p := FirstArrival(front, fid, i).packet;
      CameInStill(front, last, (p.pid, p.seg.packetId), fid);
    } else {
      var p := FirstArrival(h, fid, i).packet;
      assert BringsId(h[|h| - 1], (p.pid, p.seg.packetId), fid);
    }
  }

  lemma HeadIdsCameIn(sources: Sources, h: seq<Event>, st: State, id: (nat, nat))
    requires Faithful(sources, h, st) && st.cache != map[]
    requires id in Ids(st.cache[Least(st.cache.Keys)].packets)
    ensures CameInFor(h, id, Least(st.cache.Keys))
  {
    var fid := Least(st.cache.Keys);
    assert FrameOk(fid, st.cache[fid]) && Held(sources, fid, st.cache[fid]);
    assert MirrorsFrame(sources, h, st.cache, fid);
    var ps := st.cache[fid].packets;
    IdsAreSlots(ps, id);
    var i :| 0 <= i < |ps| && ps[i].Full? && (ps[i].packet.pid, ps[i].packet.seg.packetId) == id;
    FirstArrivalCameIn(h, fid, i);
  }

  /** The id came in for a frame that is not above the late mark. */
  ghost predicate Settled(h: seq<Event>, id: (nat, nat), minFid: nat) {
    exists fid: nat :: fid <= minFid && CameInFor(h, id, fid)
  }

  ghost predicate AllSettled(h: seq<Event>, ids: seq<(nat, nat)>, minFid: nat) {
    forall id :: id in ids ==> Settled(h, id, minFid)
  }

  lemma SettledStill(h: seq<Event>, e: Event, ids: seq<(nat, nat)>, minFid: nat)
    requires AllSettled(h, ids, minFid)
    ensures AllSettled(h + [e], ids, minFid)
  {
    forall id | id in ids ensures Settled(h + [e], id, minFid) {
      var fid: nat :| fid <= minFid && CameInFor(h, id, fid);
      CameInStill(h, e, id, fid);
    }
  }

  lemma HeadConsumes(sources: Sources, h: seq<Event>, st: State)
    requires Faithful(sources, h, st) && st.cache != map[] && AllSettled(h, st.consumed, st.minFid)
    ensures AllSettled(h, TakeHead(st).consumed, TakeHead(st).minFid)
  {
    forall id | id in TakeHead(st).consumed ensures Settled(h, id, TakeHead(st).minFid) {
      if id in st.consumed {
        var fid: nat :| fid <= st.minFid && CameInFor(h, id, fid);
      } else {
        HeadIdsCameIn(sources, h, st, id);
      }
    }
  }

  lemma {:induction false} DrainConsumes(sources: Sources, h: seq<Event>, st: State, now: nat)
    requires Faithful(sources, h, st) && AllSettled(h, st.consumed, st.minFid)
    ensures AllSettled(h, Drain(st, now).consumed, Drain(st, now).minFid)
    decreases |st.cache|
  {
    if HeadReady(st, now) {
      HeadConsumes(sources, h, st);
      TakeHeadFaithful(sources, h, st, now);
      HeadShrinks(st);
      DrainConsumes(sources, h, TakeHead(st), now);
    }
  }

  lemma TakeConsumes(sources: Sources, h: seq<Event>, st: State, a: Arrival)
    requires Faithful(sources, h, st) && Genuine(sources, a.seg) && AllSettled(h, st.consumed, st.minFid)
    ensures Fits(st.cache, a.seg) && AllSettled(h + [Arrive(a)], Take(st, a).consumed, Take(st, a).minFid)
  {
    SettledStill(h, Arrive(a), st.consumed, st.minFid);
    FrameForHeld(sources, st.cache, a.seg);
    if !Unwanted(st, a.seg) {
      StoreFaithful(sources, h, st, a);
      DrainConsumes(sources, h + [Arrive(a)], Store(st, a), a.now);
    }
  }

  lemma TickConsumes(sources: Sources, h: seq<Event>, st: State, now: nat)
    requires Faithful(sources, h, st) && AllSettled(h, st.consumed, st.minFid)
    ensures AllSettled(h + [Tick(now)], Drain(st, now).consumed, Drain(st, now).minFid)
  {
    SettledStill(h, Tick(now), st.consumed, st.minFid);
    TickFaithful(sources, h, st, now);
    DrainConsumes(sources, h + [Tick(now)], st, now);
  }

  /** A path is only told to consume packets that came in on it, for frames that are not above the late mark. */
  lemma {:induction false} RunConsumes(sources: Sources, traced: bool, h: seq<Event>)
    requires AllGenuine(sources, h)
    ensures var st := Run(sources, true, traced, h); AllSettled(h, st.consumed, st.minFid)
    decreases |h|
  {
    if h != [] {
      var front, last := h[..|h| - 1], h[|h| - 1];
      assert h == front + [last];
      RunConsumes(sources, traced, front);
      RunFaithful(sources, traced, front);
      var st := Run(sources, true, traced, front);
      match last
      case Arrive(a) => TakeConsumes(sources, front, st, a);
      case Tick(now) => TickConsumes(sources, front, st, now);
    }
  }
}
