/** How long an incomplete frame is waited for, over every run: it is given up when it is more than a second old by the
    stamps of its first packet, and not before. Times are in milliseconds, ages in 32 bits. */
module Waiting {
  import opened Arithmetic
  import opened Fidelity
  import opened Ordered
  import opened Reassembly
  import opened Receiving

  /** When the packet came in, when its path had sent its first, and how long after that it was made. */
  datatype Stamp = NoStamp | Stamp(now: nat, firstTs: int, timestamp: nat)

  /** The packet is the first to come in for its place in this frame. */
  ghost predicate FirstFor(h: seq<Event>, e: Event, fid: nat) {
    e.Arrive? && e.arrival.seg.fid == fid && FirstArrival(h, fid, e.arrival.seg.index).Empty?
  }

  /** The packet that stamps a frame: the first to come in, or, as a stamp of zero reads as none, the next one for a new
      place after those that came in at time zero. */
  ghost function StampOf(h: seq<Event>, fid: nat): Stamp {
    if h == [] then NoStamp
    else
      var before, e := StampOf(h[..|h| - 1], fid), h[|h| - 1];
      if FirstFor(h[..|h| - 1], e, fid) && (before.NoStamp? || before.now == 0)
      then Stamp(e.arrival.now, e.arrival.firstTs, e.arrival.seg.timestamp)
      else before
  }

  /** When the frame was made: only a receiver that traces frames knows. */
  ghost function MadeAt(h: seq<Event>, traced: bool, fid: nat): int {
    var s := StampOf(h, fid);
    if traced && s.Stamp? then s.firstTs + s.timestamp else 0
  }

  ghost function Age(h: seq<Event>, traced: bool, fid: nat, now: nat): nat {
    (now - MadeAt(h, traced, fid)) % 0x1_0000_0000
  }

  /** If a frame's first packet says when its sender first sent and how long after that the frame was made, its age is
      the time since it was made. */
  lemma AgeIsSinceMade(h: seq<Event>, fid: nat, made: nat, now: nat)
    requires StampOf(h, fid).Stamp?
    requires (StampOf(h, fid).firstTs + StampOf(h, fid).timestamp - made) % TWO32 == 0
    ensures Age(h, true, fid, now) == (now - made) % TWO32
  {
    var a := StampOf(h, fid).firstTs + StampOf(h, fid).timestamp;
    SameRemainder(now - a, now - made);
  }

  lemma SameRemainder(x: int, y: int)
    requires (y - x) % TWO32 == 0
    ensures x % TWO32 == y % TWO32
  {
    var k := (y - x) / TWO32;
    assert y == x + TWO32 * k;
  }

  function TimeOf(e: Event): nat {
    if e.Arrive? then e.arrival.now else e.now
  }

  /** From its first packet on a frame keeps its stamp, if the packet did not come in at time zero. */
  lemma {:induction false} FirstPacketStamps(h: seq<Event>, fid: nat, k: nat)
    requires k < |h| && h[k].Arrive? && h[k].arrival.seg.fid == fid && h[k].arrival.now > 0
    requires forall i :: 0 <= i < k && h[i].Arrive? ==> h[i].arrival.seg.fid != fid
    ensures StampOf(h, fid) == Stamp(h[k].arrival.now, h[k].arrival.firstTs, h[k].arrival.seg.timestamp)
    decreases |h|
  {
    if k == |h| - 1 {
      NothingYet(h[..k], fid, h[k].arrival.seg.index);
    } else {
      FirstPacketStamps(h[..|h| - 1], fid, k);
    }
  }

  lemma {:induction false} NothingYet(h: seq<Event>, fid: nat, i: nat)
    requires forall k :: 0 <= k < |h| && h[k].Arrive? ==> h[k].arrival.seg.fid != fid
    ensures FirstArrival(h, fid, i).Empty? && StampOf(h, fid).NoStamp?
    decreases |h|
  {
    if h != [] {
      NothingYet(h[..|h| - 1], fid, i);
    }
  }

  // ---- cached frames carry their stamps ----

  ghost predicate Carries(f: Frame, s: Stamp, traced: bool) {
    && s.Stamp? && f.firstTs == s.now
    && f.frameFirstTs == (if traced then s.firstTs else 0)
    && f.frameTimestamp == (if traced then s.timestamp else 0)
  }

  ghost predicate StampsFrame(h: seq<Event>, cache: map<nat, Frame>, traced: bool, fid: nat) {
    if fid in cache then Carries(cache[fid], StampOf(h, fid), traced) else StampOf(h, fid).NoStamp?
  }

  ghost predicate Stamps(sources: Sources, h: seq<Event>, st: State) {
    forall fid :: fid in sources && fid > st.minFid ==> StampsFrame(h, st.cache, st.traced, fid)
  }

  /** The cache mirrors what came in, and when. */
  ghost predicate Timed(sources: Sources, h: seq<Event>, st: State) {
    Faithful(sources, h, st) && Stamps(sources, h, st)
  }

  lemma StampNext(h: seq<Event>, e: Event, fid: nat)
    ensures !FirstFor(h, e, fid) ==> StampOf(h + [e], fid) == StampOf(h, fid)
    ensures FirstFor(h, e, fid) ==>
              StampOf(h + [e], fid) == if StampOf(h, fid).NoStamp? || StampOf(h, fid).now == 0
                                       then Stamp(e.arrival.now, e.arrival.firstTs, e.arrival.seg.timestamp)
                                       else StampOf(h, fid)
  {
    assert (h + [e])[..|h|] == h;
  }

  lemma TickTimed(sources: Sources, h: seq<Event>, st: State, now: nat)
    requires Timed(sources, h, st)
    ensures Timed(sources, h + [Tick(now)], st)
  {
    TickFaithful(sources, h, st, now);
    forall fid | fid in sources && fid > st.minFid ensures StampsFrame(h + [Tick(now)], st.cache, st.traced, fid) {
      StampNext(h, Tick(now), fid);
      assert StampsFrame(h, st.cache, st.traced, fid);
    }
  }

  /** A packet above the late mark is stored exactly if it is the first for its place. */
  lemma WantedIffFirst(sources: Sources, h: seq<Event>, st: State, a: Arrival)
    requires Faithful(sources, h, st) && Genuine(sources, a.seg) && a.seg.fid > st.minFid
    ensures Fits(st.cache, a.seg)
    ensures !Unwanted(st, a.seg) <==> FirstFor(h, Arrive(a), a.seg.fid)
  {
    FrameForHeld(sources, st.cache, a.seg);
    assert MirrorsFrame(sources, h, st.cache, a.seg.fid);
    var ps := Arrived(sources, h, a.seg.fid);
    assert ps[a.seg.index] == FirstArrival(h, a.seg.fid, a.seg.index) && ps[a.seg.index] in ps;
  }

  lemma UnwantedTimed(sources: Sources, h: seq<Event>, st: State, a: Arrival)
    requires Timed(sources, h, st) && Genuine(sources, a.seg)
    requires Fits(st.cache, a.seg) && Unwanted(st, a.seg)
    ensures Timed(sources, h + [Arrive(a)], st)
  {
    UnwantedMirrors(sources, h, st, a);
    if a.seg.fid > st.minFid {
      WantedIffFirst(sources, h, st, a);
    }
    forall fid | fid in sources && fid > st.minFid ensures StampsFrame(h + [Arrive(a)], st.cache, st.traced, fid) {
      StampNext(h, Arrive(a), fid);
      assert StampsFrame(h, st.cache, st.traced, fid);
    }
  }

  lemma StoreTimed(sources: Sources, h: seq<Event>, st: State, a: Arrival)
    requires Timed(sources, h, st) && Genuine(sources, a.seg)
    requires Fits(st.cache, a.seg) && !Unwanted(st, a.seg)
    ensures Timed(sources, h + [Arrive(a)], Store(st, a))
  {
    StoreFaithful(sources, h, st, a);
    WantedIffFirst(sources, h, st, a);
    var after := Store(st, a);
    forall fid | fid in sources && fid > st.minFid
      ensures StampsFrame(h + [Arrive(a)], after.cache, st.traced, fid)
    {
      StampNext(h, Arrive(a), fid);
      assert StampsFrame(h, st.cache, st.traced, fid);
    }
  }

  lemma TakeHeadTimed(sources: Sources, h: seq<Event>, st: State, now: nat)
    requires Timed(sources, h, st) && HeadReady(st, now)
    ensures Timed(sources, h, TakeHead(st))
  {
    TakeHeadFaithful(sources, h, st, now);
    var after := TakeHead(st);
    forall fid | fid in sources && fid > after.minFid ensures StampsFrame(h, after.cache, after.traced, fid) {
      assert StampsFrame(h, st.cache, st.traced, fid);
    }
  }

  lemma {:induction false} DrainTimed(sources: Sources, h: seq<Event>, st: State, now: nat)
    requires Timed(sources, h, st)
    ensures Timed(sources, h, Drain(st, now)) && Drain(st, now).traced == st.traced
    decreases |st.cache|
  {
    if HeadReady(st, now) {
      TakeHeadTimed(sources, h, st, now);
      HeadShrinks(st);
      DrainTimed(sources, h, TakeHead(st), now);
    }
  }

  lemma TakeTimed(sources: Sources, h: seq<Event>, st: State, a: Arrival)
    requires Timed(sources, h, st) && Genuine(sources, a.seg)
    ensures Fits(st.cache, a.seg) && Timed(sources, h + [Arrive(a)], Take(st, a)) && Take(st, a).traced == st.traced
  {
    FrameForHeld(sources, st.cache, a.seg);
    if Unwanted(st, a.seg) {
      UnwantedTimed(sources, h, st, a);
    } else {
      StoreTimed(sources, h, st, a);
      DrainTimed(sources, h + [Arrive(a)], Store(st, a), a.now);
    }
  }

  lemma EventTimed(sources: Sources, h: seq<Event>, st: State, e: Event)
    requires Timed(sources, h, st) && (e.Arrive? ==> Genuine(sources, e.arrival.seg))
    ensures e.Arrive? ==> Fits(st.cache, e.arrival.seg)
    ensures var next := if e.Arrive? then Take(st, e.arrival) else Drain(st, e.now);
            Timed(sources, h + [e], next) && next.traced == st.traced
  {
    match e
    case Arrive(a) => TakeTimed(sources, h, st, a);
    case Tick(now) =>
      TickTimed(sources, h, st, now);
      DrainTimed(sources, h + [e], st, now);
  }

  lemma RunStep(sources: Sources, traced: bool, h: seq<Event>, e: Event)
    requires AllGenuine(sources, h) && AllGenuine(sources, h + [e])
    ensures var st := Run(sources, true, traced, h);
            && (e.Arrive? ==> Genuine(sources, e.arrival.seg) && Fits(st.cache, e.arrival.seg))
            && Run(sources, true, traced, h + [e]) == if e.Arrive? then Take(st, e.arrival) else Drain(st, e.now)
  {
    var st := Run(sources, true, traced, h);
    assert (h + [e])[..|h|] == h && (h + [e])[|h|] == e;
    if e.Arrive? {
      FrameForHeld(sources, st.cache, e.arrival.seg);
    }
  }

  lemma StartStamps(sources: Sources, h: seq<Event>, st: State)
    requires h == [] && st.cache == map[]
    ensures Stamps(sources, h, st)
  {
  }

  lemma RunStart(sources: Sources, traced: bool, h: seq<Event>)
    requires h == []
    ensures Run(sources, true, traced, h).cache == map[] && Run(sources, true, traced, h).traced == traced
  {
  }

  lemma RunTimedStep(sources: Sources, traced: bool, h: seq<Event>, e: Event)
    requires AllGenuine(sources, h) && AllGenuine(sources, h + [e])
    requires Timed(sources, h, Run(sources, true, traced, h)) && Run(sources, true, traced, h).traced == traced
    ensures Timed(sources, h + [e], Run(sources, true, traced, h + [e]))
    ensures Run(sources, true, traced, h + [e]).traced == traced
  {
    RunStep(sources, traced, h, e);
    EventTimed(sources, h, Run(sources, true, traced, h), e);
  }

  /** Over every run with a sink, cached frames carry the stamps of the packets that came in. */
  lemma {:induction false} RunTimed(sources: Sources, traced: bool, h: seq<Event>)
    requires AllGenuine(sources, h)
    ensures Timed(sources, h, Run(sources, true, traced, h)) && Run(sources, true, traced, h).traced == traced
    decreases |h|
  {
    if h == [] {
      RunFaithful(sources, traced, h);
      RunStart(sources, traced, h);
      StartStamps(sources, h, Run(sources, true, traced, h));
    } else {
      var front := h[..|h| - 1];
      assert h == front + [h[|h| - 1]];
      RunTimed(sources, traced, front);
      RunTimedStep(sources, traced, front, h[|h| - 1]);
    }
  }

  // ---- no frame is given up early ----

  /** Of the deliveries from the given place on, those that are not complete are of frames more than a second old. */
  ghost predicate GivesUpOld(h: seq<Event>, traced: bool, now: nat, log: seq<Delivery>, from: nat) {
    forall j :: from <= j < |log| && log[j].recv < log[j].total ==> Age(h, traced, log[j].fid, now) > 1000
  }

  lemma HeadKnown(sources: Sources, h: seq<Event>, st: State)
    requires Faithful(sources, h, st) && st.cache != map[]
    ensures var fid := Least(st.cache.Keys);
            var f := st.cache[fid];
            && fid in sources && fid > st.minFid && f.frameType == sources[fid].ftype
            && f.recv <= f.total && (f.waittingTs == -1 <==> f.frameType == 1)
  {
    var fid := Least(st.cache.Keys);
    assert FrameOk(fid, st.cache[fid]) && Held(sources, fid, st.cache[fid]);
  }

  lemma FrameAge(h: seq<Event>, f: Frame, traced: bool, fid: nat, now: nat)
    requires Carries(f, StampOf(h, fid), traced) && f.recv <= f.total && (f.waittingTs == -1 <==> f.frameType == 1)
    ensures Ready(f, now) <==> f.recv == f.total || (f.frameType != 1 && Age(h, traced, fid, now) > 1000)
  {
  }

  /** The head of the cache is ready if it is complete, or more than a second old and need not be whole. */
  lemma HeadReadyIff(sources: Sources, h: seq<Event>, st: State, now: nat)
    requires Timed(sources, h, st) && st.cache != map[]
    ensures var fid := Least(st.cache.Keys);
            var f := st.cache[fid];
            && fid in sources && f.recv <= f.total
            && (HeadReady(st, now) <==>
                  f.recv == f.total || (sources[fid].ftype != 1 && Age(h, st.traced, fid, now) > 1000))
  {
    var fid := Least(st.cache.Keys);
    HeadKnown(sources, h, st);
    assert StampsFrame(h, st.cache, st.traced, fid);
    FrameAge(h, st.cache[fid], st.traced, fid, now);
  }

  lemma OldFirst(h: seq<Event>, traced: bool, now: nat, before: seq<Delivery>, d: Delivery, log: seq<Delivery>)
    requires d.recv < d.total ==> Age(h, traced, d.fid, now) > 1000
    requires before + [d] <= log && GivesUpOld(h, traced, now, log, |before| + 1)
    ensures before <= log && GivesUpOld(h, traced, now, log, |before|)
  {
    assert log[|before|] == (before + [d])[|before|];
    assert before == (before + [d])[..|before|] == log[..|before|];
  }

  lemma {:induction false} DrainGivesUp(sources: Sources, h: seq<Event>, st: State, now: nat)
    requires Timed(sources, h, st)
    ensures st.delivered <= Drain(st, now).delivered
    ensures GivesUpOld(h, st.traced, now, Drain(st, now).delivered, |st.delivered|)
    decreases |st.cache|
  {
    if HeadReady(st, now) {
      HeadReadyIff(sources, h, st, now);
      TakeHeadTimed(sources, h, st, now);
      HeadShrinks(st);
      DrainGivesUp(sources, h, TakeHead(st), now);
      var fid := Least(st.cache.Keys);
      OldFirst(h, st.traced, now, st.delivered, Handed(fid, st.cache[fid]), Drain(st, now).delivered);
    }
  }

  /** What an event delivers incomplete is more than a second old by then. */
  lemma EventGivesUp(sources: Sources, traced: bool, h: seq<Event>)
    requires AllGenuine(sources, h) && h != []
    ensures GivesUpOld(h, traced, TimeOf(h[|h| - 1]), Run(sources, true, traced, h).delivered,
                       |Run(sources, true, traced, h[..|h| - 1]).delivered|)
  {
    var front, last := h[..|h| - 1], h[|h| - 1];
    assert h == front + [last];
    RunTimed(sources, traced, front);
    var st := Run(sources, true, traced, front);
    match last
    case Arrive(a) =>
      FrameForHeld(sources, st.cache, a.seg);
      if !Unwanted(st, a.seg) {
        StoreTimed(sources, front, st, a);
        DrainGivesUp(sources, h, Store(st, a), a.now);
      }
    case Tick(now) =>
      TickTimed(sources, front, st, now);
      DrainGivesUp(sources, h, st, now);
  }

  /** A delivery with pieces missing is of a frame more than a second old, and not of the type that must be whole. */
  ghost predicate OldIfGivenUp(sources: Sources, h: seq<Event>, traced: bool, d: Delivery, now: nat)
    requires d.fid in sources
  {
    d.recv < d.total ==> sources[d.fid].ftype != 1 && Age(h, traced, d.fid, now) > 1000
  }

  lemma GivenUpBy(sources: Sources, traced: bool, h: seq<Event>, before: nat, log: seq<Delivery>, now: nat, j: nat)
    requires GivesUpOld(h, traced, now, log, before) && before <= j < |log|
    requires DeliveredAt(sources, h, log[j])
    ensures log[j].fid in sources && OldIfGivenUp(sources, h, traced, log[j], now)
  {
  }

  lemma EventGivesUpAt(sources: Sources, traced: bool, h: seq<Event>, k: nat)
    requires AllGenuine(sources, h) && 0 < k <= |h|
    ensures GivesUpOld(h[..k], traced, TimeOf(h[k - 1]), LogAfter(sources, traced, h, k),
                       |LogAfter(sources, traced, h, k - 1)|)
  {
    EventGivesUp(sources, traced, h[..k]);
    assert h[..k][..k - 1] == h[..k - 1];
  }

  lemma GivenUpAt(sources: Sources, traced: bool, h: seq<Event>, j: nat, k: nat)
    requires AllGenuine(sources, h) && j < |Run(sources, true, traced, h).delivered|
    requires DeliveredBy(sources, traced, h, j, k)
    ensures var d := Run(sources, true, traced, h).delivered[j];
            d.fid in sources && OldIfGivenUp(sources, h[..k], traced, d, TimeOf(h[k - 1]))
  {
    EventGivesUpAt(sources, traced, h, k);
    GivenUpBy(sources, traced, h[..k], |LogAfter(sources, traced, h, k - 1)|, LogAfter(sources, traced, h, k),
              TimeOf(h[k - 1]), j);
  }

  /** Over every run with a sink, a frame delivered with pieces missing was more than a second old when the event came
      that delivered it. */
  lemma GivenUpIsOld(sources: Sources, traced: bool, h: seq<Event>, j: nat)
    requires AllGenuine(sources, h) && j < |Run(sources, true, traced, h).delivered|
    ensures var d, k := Run(sources, true, traced, h).delivered[j], DeliveredAfter(sources, traced, h, j);
            && DeliveredBy(sources, traced, h, j, k) && d.fid in sources
            && OldIfGivenUp(sources, h[..k], traced, d, TimeOf(h[k - 1]))
  {
    RunDelivers(sources, traced, h, j);
    GivenUpAt(sources, traced, h, j, DeliveredAfter(sources, traced, h, j));
  }

  // ---- and none is kept longer ----

  /** The event looks for frames to deliver: the heartbeat, or a packet that is stored. */
  ghost predicate Looks(h: seq<Event>, e: Event, minFid: nat) {
    e.Tick? || (e.arrival.seg.fid > minFid && FirstFor(h, e, e.arrival.seg.fid))
  }

  /** The head of the cache lacks pieces, and must be whole or is not more than a second old. */
  ghost predicate HeadWorthWaiting(sources: Sources, h: seq<Event>, st: State, traced: bool, now: nat) {
    st.cache != map[] ==>
      var fid := Least(st.cache.Keys);
      && fid in sources && st.cache[fid].recv < st.cache[fid].total
      && (sources[fid].ftype == 1 || Age(h, traced, fid, now) <= 1000)
  }

  lemma WaitingHead(sources: Sources, h: seq<Event>, st: State, now: nat)
    requires Timed(sources, h, st) && !HeadReady(st, now)
    ensures HeadWorthWaiting(sources, h, st, st.traced, now)
  {
    if st.cache != map[] {
      HeadReadyIff(sources, h, st, now);
    }
  }

  lemma LooksLeaves(sources: Sources, h: seq<Event>, st: State, e: Event)
    requires Faithful(sources, h, st) && (e.Arrive? ==> Genuine(sources, e.arrival.seg)) && Looks(h, e, st.minFid)
    ensures e.Arrive? ==> Fits(st.cache, e.arrival.seg)
    ensures !HeadReady(if e.Arrive? then Take(st, e.arrival) else Drain(st, e.now), TimeOf(e))
  {
    match e
    case Arrive(a) =>
      WantedIffFirst(sources, h, st, a);
      TakeGood(st, a);
    case Tick(now) => DrainGood(st, now);
  }

  /** Over every run with a sink: after an event that looks for frames, the first frame of the cache is one that must be
      whole or has not been under way for more than a second. */
  lemma NoneWaitsLonger(sources: Sources, traced: bool, h: seq<Event>, e: Event)
    requires AllGenuine(sources, h + [e]) && AllGenuine(sources, h)
    requires Looks(h, e, Run(sources, true, traced, h).minFid)
    ensures HeadWorthWaiting(sources, h + [e], Run(sources, true, traced, h + [e]), traced, TimeOf(e))
  {
    var st := Run(sources, true, traced, h);
    RunStep(sources, traced, h, e);
    RunTimed(sources, traced, h);
    LooksLeaves(sources, h, st, e);
    RunTimed(sources, traced, h + [e]);
    WaitingHead(sources, h + [e], Run(sources, true, traced, h + [e]), TimeOf(e));
  }
}
