/** The multipath receiver as a state machine over values: what an arrival and a
    heartbeat do, and what every run keeps. */
module Receiving {
  import opened Arithmetic
  import opened Ordered
  import opened Reassembly
  import opened SegmentCodec

  /** `delivered` and `consumed` list the calls made to the sink and to the paths;
      `lost` is what frames taken without a sink left behind in the byte count. */
  datatype State = State(
    cache: map<nat, Frame>, minFid: nat, recvBufLen: int, free: nat, made: nat, sink: bool, traced: bool,
    delivered: seq<Delivery>, consumed: seq<(nat, nat)>, lost: nat)

  /** One segment coming in on a path: the time, the path's first send time, and the wait for lost packets. */
  datatype Arrival = Arrival(pid: nat, seg: Segment, now: nat, firstTs: int, wait: nat)

  // ---- one step ----

  predicate Expired(f: Frame, now: nat) {
    (now - (f.frameFirstTs + f.frameTimestamp)) % TWO32 > MAX_FRAME_WAITTING
  }

  /** Complete, or no longer worth waiting for. */
  predicate Ready(f: Frame, now: nat) {
    f.recv == f.total || (f.recv < f.total && f.waittingTs != -1 && Expired(f, now))
  }

  function Handed(fid: nat, f: Frame): Delivery {
    Delivery(fid, Payload(f.packets), f.recv, f.total)
  }

  /** Delivers the frame with the least id and forgets it. */
  function TakeHead(st: State): State
    requires st.cache != map[]
  {
    var fid := Least(st.cache.Keys);
    var f := st.cache[fid];
    var rest := st.(cache := st.cache - {fid}, free := st.free + Present(f.packets),
                    consumed := st.consumed + Ids(f.packets));
    if st.sink then
      rest.(minFid := Max(st.minFid, fid), recvBufLen := st.recvBufLen - Weight(f.packets),
            delivered := st.delivered + [Handed(fid, f)])
    else
      rest.(lost := st.lost + Weight(f.packets))
  }

  predicate HeadReady(st: State, now: nat) {
    st.cache != map[] && Ready(st.cache[Least(st.cache.Keys)], now)
  }

  lemma HeadShrinks(st: State)
    requires st.cache != map[]
    ensures |TakeHead(st).cache| < |st.cache|
  {
    assert |TakeHead(st).cache.Keys| < |st.cache.Keys|;
  }

  /** Takes frames off the head of the cache for as long as they are ready. */
  function Drain(st: State, now: nat): State
    decreases |st.cache|
  {
    if HeadReady(st, now) then
      HeadShrinks(st);
      Drain(TakeHead(st), now)
    else
      st
  }

  function NewFrame(seg: Segment): Frame {
    Frame(seg.total, 0, seg.ftype, 0, 0, if seg.ftype == 1 then -1 else 0, 0, 0, seq(seg.total, _ => Empty))
  }

  function FrameFor(cache: map<nat, Frame>, seg: Segment): Frame {
    if seg.fid in cache then cache[seg.fid] else NewFrame(seg)
  }

  /** The receiver relies on its senders for this: it does not check. */
  predicate Fits(cache: map<nat, Frame>, seg: Segment) {
    seg.index < |FrameFor(cache, seg).packets|
  }

  /** Too late, or there already. */
  predicate Unwanted(st: State, seg: Segment)
    requires Fits(st.cache, seg)
  {
    seg.fid <= st.minFid || FrameFor(st.cache, seg).packets[seg.index].Full?
  }

  function Stamped(f: Frame, a: Arrival, traced: bool): Frame {
    if f.firstTs != 0 then f
    else if traced then f.(firstTs := a.now, frameFirstTs := a.firstTs, frameTimestamp := a.seg.timestamp)
    else f.(firstTs := a.now)
  }

  function Waiting(f: Frame, a: Arrival): int {
    if f.recv < f.total && f.waittingTs != -1 then (a.now + a.wait) % TWO32 else f.waittingTs
  }

  function Filled(f: Frame, a: Arrival, traced: bool): Frame
    requires a.seg.index < |f.packets|
  {
    var g := Stamped(f, a, traced).(ts := a.now, recv := f.recv + 1,
                                    packets := f.packets[a.seg.index := Full(Packet(a.pid, a.seg))]);
    g.(waittingTs := Waiting(g, a))
  }

  function Store(st: State, a: Arrival): State
    requires Fits(st.cache, a.seg)
  {
    st.(cache := st.cache[a.seg.fid := Filled(FrameFor(st.cache, a.seg), a, st.traced)],
        free := if st.free > 0 then st.free - 1 else 0,
        made := if st.free > 0 then st.made else st.made + 1,
        recvBufLen := st.recvBufLen + Bulk(Packet(a.pid, a.seg)))
  }

  function Take(st: State, a: Arrival): State
    requires Fits(st.cache, a.seg)
  {
    if Unwanted(st, a.seg) then st else Drain(Store(st, a), a.now)
  }

  // ---- what every step keeps ----

  ghost predicate SlotsFit(fid: nat, ps: seq<Slot>) {
    forall i :: 0 <= i < |ps| ==> SlotFits(fid, i, ps[i])
  }

  ghost predicate FrameOk(fid: nat, f: Frame) {
    && |f.packets| == f.total
    && 0 < f.recv == Present(f.packets) <= f.total
    && SlotsFit(fid, f.packets)
    && (f.waittingTs == -1 <==> f.frameType == 1)
  }

  ghost predicate CacheOk(cache: map<nat, Frame>, minFid: nat) {
    forall fid :: fid in cache ==> fid > minFid && FrameOk(fid, cache[fid])
  }

  ghost function Weights(cache: map<nat, Frame>): map<nat, int> {
    map fid | fid in cache :: Weight(cache[fid].packets)
  }

  ghost function Counts(cache: map<nat, Frame>): map<nat, int> {
    map fid | fid in cache :: Present(cache[fid].packets)
  }

  /** Delivered frame ids rise strictly and never pass the late mark. */
  ghost predicate InSequence(log: seq<Delivery>, minFid: nat) {
    && (forall i, j :: 0 <= i < j < |log| ==> log[i].fid < log[j].fid)
    && (forall i :: 0 <= i < |log| ==> log[i].fid <= minFid)
  }

  ghost predicate Good(st: State) {
    && CacheOk(st.cache, st.minFid)
    && st.recvBufLen == Sum(Weights(st.cache)) + st.lost
    && st.made == st.free + Sum(Counts(st.cache))
    && InSequence(st.delivered, st.minFid)
  }

  lemma SumWithout(cache: map<nat, Frame>, fid: nat)
    requires fid in cache
    ensures Sum(Weights(cache)) == Weight(cache[fid].packets) + Sum(Weights(cache - {fid}))
    ensures Sum(Counts(cache)) == Present(cache[fid].packets) + Sum(Counts(cache - {fid}))
  {
    SumRemove(Weights(cache), fid);
    SumRemove(Counts(cache), fid);
    assert Weights(cache) - {fid} == Weights(cache - {fid});
    assert Counts(cache) - {fid} == Counts(cache - {fid});
  }

  lemma {:induction false} WeightBound(ps: seq<Slot>)
    ensures Weight(ps) >= SIM_SEGMENT_HEADER_SIZE * Present(ps)
    decreases |ps|
  {
    if ps != [] {
      WeightBound(ps[..|ps| - 1]);
    }
  }

  lemma HeadRemoved(cache: map<nat, Frame>, minFid: nat)
    requires CacheOk(cache, minFid) && cache != map[]
    ensures var fid := Least(cache.Keys);
            fid > minFid && CacheOk(cache - {fid}, fid) && CacheOk(cache - {fid}, minFid)
  {
    var fid := Least(cache.Keys);
    assert FrameOk(fid, cache[fid]);
    forall k | k in cache - {fid} ensures k > fid && k > minFid && FrameOk(k, (cache - {fid})[k]) {
      assert k in cache.Keys;
    }
  }

  lemma SequenceGrows(log: seq<Delivery>, minFid: nat, d: Delivery)
    requires InSequence(log, minFid) && d.fid > minFid
    ensures InSequence(log + [d], d.fid)
  {
  }

  lemma HeadWeighs(cache: map<nat, Frame>, minFid: nat, fid: nat)
    requires CacheOk(cache, minFid) && fid in cache
    ensures Weight(cache[fid].packets) > 0
  {
    WeightBound(cache[fid].packets);
  }

  /** Taking a frame keeps the books; the byte count goes wrong exactly when no sink takes the frame. */
  lemma TakeHeadGood(st: State)
    requires Good(st) && st.cache != map[]
    ensures Good(TakeHead(st))
    ensures TakeHead(st).lost == st.lost <==> st.sink
  {
    var fid := Least(st.cache.Keys);
    SumWithout(st.cache, fid);
    HeadRemoved(st.cache, st.minFid);
    HeadWeighs(st.cache, st.minFid, fid);
    SequenceGrows(st.delivered, st.minFid, Handed(fid, st.cache[fid]));
  }

  lemma {:induction false} DrainGood(st: State, now: nat)
    requires Good(st)
    ensures Good(Drain(st, now))
    ensures !HeadReady(Drain(st, now), now)
    decreases |st.cache|
  {
    if HeadReady(st, now) {
      TakeHeadGood(st);
      HeadShrinks(st);
      DrainGood(TakeHead(st), now);
    }
  }

  /** From the given place on, the log has only frames above the mark. */
  ghost predicate OnlyAbove(log: seq<Delivery>, from: nat, mark: nat) {
    forall j :: from <= j < |log| ==> log[j].fid > mark
  }

  lemma HeadAbove(st: State)
    requires Good(st) && st.cache != map[]
    ensures st.minFid <= TakeHead(st).minFid && st.delivered <= TakeHead(st).delivered
    ensures OnlyAbove(TakeHead(st).delivered, |st.delivered|, st.minFid)
  {
    HeadRemoved(st.cache, st.minFid);
  }

  lemma StillAbove(a: seq<Delivery>, b: seq<Delivery>, log: seq<Delivery>, mark: nat, later: nat)
    requires a <= b <= log && mark <= later
    requires OnlyAbove(b, |a|, mark) && OnlyAbove(log, |b|, later)
    ensures a <= log && OnlyAbove(log, |a|, mark)
  {
    forall j | |a| <= j < |log| ensures log[j].fid > mark {
      if j < |b| {
        assert log[j] == b[j];
      }
    }
  }

  /** Draining delivers only frames that were above the late mark, which never falls. */
  lemma {:induction false} DrainAbove(st: State, now: nat)
    requires Good(st)
    ensures st.minFid <= Drain(st, now).minFid && st.delivered <= Drain(st, now).delivered
    ensures OnlyAbove(Drain(st, now).delivered, |st.delivered|, st.minFid)
    decreases |st.cache|
  {
    if HeadReady(st, now) {
      TakeHeadGood(st);
      HeadAbove(st);
      HeadShrinks(st);
      DrainAbove(TakeHead(st), now);
      StillAbove(st.delivered, TakeHead(st).delivered, Drain(st, now).delivered, st.minFid, TakeHead(st).minFid);
    }
  }

  lemma EmptySlots(n: nat)
    ensures Present(seq(n, _ => Empty)) == 0 && Weight(seq(n, _ => Empty)) == 0
  {
    NonePresent(seq(n, _ => Empty));
  }

  /** What is known of the frame a segment goes into, cached or new. */
  ghost predicate Fillable(fid: nat, f: Frame) {
    && |f.packets| == f.total
    && f.recv == Present(f.packets)
    && SlotsFit(fid, f.packets)
    && (f.waittingTs == -1 <==> f.frameType == 1)
  }

  lemma FrameForFillable(st: State, seg: Segment)
    requires Good(st) && Fits(st.cache, seg)
    ensures Fillable(seg.fid, FrameFor(st.cache, seg))
    ensures seg.fid !in st.cache ==>
              Weight(FrameFor(st.cache, seg).packets) == 0
              && Present(FrameFor(st.cache, seg).packets) == 0
  {
    if seg.fid in st.cache {
      assert FrameOk(seg.fid, st.cache[seg.fid]);
    } else {
      EmptySlots(seg.total);
    }
  }

  lemma FilledOk(f: Frame, a: Arrival, traced: bool)
    requires Fillable(a.seg.fid, f) && a.seg.index < |f.packets| && f.packets[a.seg.index].Empty?
    ensures var g := Filled(f, a, traced);
            && FrameOk(a.seg.fid, g)
            && Weight(g.packets) == Weight(f.packets) + Bulk(Packet(a.pid, a.seg))
            && Present(g.packets) == Present(f.packets) + 1
            && g.total == f.total && g.frameType == f.frameType
  {
    FillSlot(f.packets, a.seg.index, Packet(a.pid, a.seg));
  }

  lemma SumWith(cache: map<nat, Frame>, fid: nat, g: Frame)
    ensures Sum(Weights(cache[fid := g])) == Sum(Weights(cache)) + Weight(g.packets)
                                           - (if fid in cache then Weight(cache[fid].packets) else 0)
    ensures Sum(Counts(cache[fid := g])) == Sum(Counts(cache)) + Present(g.packets)
                                          - (if fid in cache then Present(cache[fid].packets) else 0)
  {
    SumWithout(cache[fid := g], fid);
    assert cache[fid := g] - {fid} == cache - {fid};
    if fid in cache {
      SumWithout(cache, fid);
    } else {
      assert cache - {fid} == cache;
    }
  }

  lemma StoreGood(st: State, a: Arrival)
    requires Good(st) && Fits(st.cache, a.seg) && !Unwanted(st, a.seg)
    ensures Good(Store(st, a))
  {
    var f := FrameFor(st.cache, a.seg);
    FrameForFillable(st, a.seg);
    FilledOk(f, a, st.traced);
    SumWith(st.cache, a.seg.fid, Filled(f, a, st.traced));
    CacheGrows(st.cache, st.minFid, a.seg.fid, Filled(f, a, st.traced));
  }

  lemma CacheGrows(cache: map<nat, Frame>, minFid: nat, fid: nat, g: Frame)
    requires CacheOk(cache, minFid) && fid > minFid && FrameOk(fid, g)
    ensures CacheOk(cache[fid := g], minFid)
  {
  }

  /** Every arrival keeps the books, and afterwards no complete frame heads the cache. */
  lemma TakeGood(st: State, a: Arrival)
    requires Good(st) && Fits(st.cache, a.seg)
    ensures Good(Take(st, a))
    ensures !Unwanted(st, a.seg) ==> !HeadReady(Take(st, a), a.now)
  {
    if !Unwanted(st, a.seg) {
      StoreGood(st, a);
      DrainGood(Store(st, a), a.now);
    }
  }
}
