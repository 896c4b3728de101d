/** The receiving end of all paths: reassembly, ordered delivery, recycled buffers. */
module MpReceiver {
  import opened Arithmetic
  import opened Bytes
  import opened Ordered
  import opened Reassembly
  import opened Receiving
  import opened SegmentCodec
  import opened Sequences

  class MultipathReceiver {
    var frameCache: map<nat, Frame>
    var freeSegs: nat
    var segC: nat
    var minFid: nat
    var recvBufLen: int
    var stop: bool
    var deliver: bool
    var frameInfoCb: bool
    var delivered: seq<Delivery>
    var consumed: seq<(nat, nat)>
    ghost var lost: nat

    ghost function View(): State
      reads this
    {
      State(frameCache, minFid, recvBufLen, freeSegs, segC, deliver, frameInfoCb, delivered, consumed, lost)
    }

    constructor (traced: bool)
      ensures View() == State(map[], 0, 0, 2, 2, false, traced, [], [], 0) && !stop
    {
      frameCache, freeSegs, segC, minFid, recvBufLen := map[], 2, 2, 0, 0;
      stop, deliver, frameInfoCb := false, false, traced;
      delivered, consumed, lost := [], [], 0;
    }

    method RegisterDataSink() returns (ret: bool)
      modifies this
      ensures View() == old(View()).(sink := true) && stop == old(stop)
      ensures ret <==> !old(deliver)
    {
      ret := !deliver;
      deliver := true;
    }

    /** Copies the packets into one buffer, taking them off the byte count. */
    method CopyPackets(ps: seq<Slot>) returns (data: seq<Byte>)
      modifies this`recvBufLen
      ensures data == Payload(ps) && recvBufLen == old(recvBufLen) - Weight(ps)
    {
      var bufSize := BufferSize(ps);
      var buf := new Byte[bufSize];
      var offset := 0;
      var i := 0;
      while i < |ps|
        invariant i <= |ps|
        invariant offset == |Payload(ps[..i])| && offset <= bufSize
        invariant buf[..offset] == Payload(ps[..i])
        invariant recvBufLen == old(recvBufLen) - Weight(ps[..i])
      {
        PayloadFits(ps, i + 1);
        assert ps[..i + 1][..i] == ps[..i];
        if ps[i].Full? {
          var piece := ps[i].packet.seg.data;
          recvBufLen := recvBufLen - (|piece| + SIM_SEGMENT_HEADER_SIZE);
          forall k | 0 <= k < |piece| {
            buf[offset + k] := piece[k];
          }
          assert buf[..offset + |piece|] == Payload(ps[..i]) + piece;
          offset := offset + |piece|;
        }
        i := i + 1;
      }
      TakeAll(ps);
      data := buf[..offset];
    }

    /** Hands the packets of a frame to the sink as one buffer. */
    method DeliverFrame(fid: nat, f: Frame) returns (ret: bool)
      modifies this
      ensures ret == deliver
      ensures View() == if !ret then old(View()) else
                          old(View()).(minFid := Max(old(minFid), fid),
                                       recvBufLen := old(recvBufLen) - Weight(f.packets),
                                       delivered := old(delivered) + [Handed(fid, f)])
      ensures stop == old(stop)
    {
      ret := false;
      if deliver {
        var data := CopyPackets(f.packets);
        delivered := delivered + [Delivery(fid, data, f.recv, f.total)];
        ret := true;
        if minFid < fid {
          minFid := fid;
        }
      }
    }

    method PacketConsumed(f: Frame)
      requires |f.packets| == f.total
      modifies this
      ensures View() == old(View()).(consumed := old(consumed) + Ids(f.packets)) && stop == old(stop)
    {
      var i := 0;
      var before := consumed;
      while i < f.total
        modifies this`consumed
        invariant i <= f.total
        invariant consumed == before + Ids(f.packets[..i])
      {
        assert f.packets[..i + 1][..i] == f.packets[..i];
        if f.packets[i].Full? {
          consumed := consumed + [(f.packets[i].packet.pid, f.packets[i].packet.seg.packetId)];
        }
        i := i + 1;
      }
      TakeAll(f.packets);
    }

    method BuffCollection(f: Frame)
      requires |f.packets| == f.total
      modifies this
      ensures View() == old(View()).(free := old(freeSegs) + Present(f.packets)) && stop == old(stop)
    {
      var i := 0;
      var before := freeSegs;
      while i < f.total
        modifies this`freeSegs
        invariant i <= f.total
        invariant freeSegs == before + Present(f.packets[..i])
      {
        assert f.packets[..i + 1][..i] == f.packets[..i];
        if f.packets[i].Full? {
          freeSegs := freeSegs + 1;
        }
        i := i + 1;
      }
      TakeAll(f.packets);
    }

    /** Delivers from the head of the cache as long as the frame there is complete or has waited too long. */
    method CheckDeliverFrame(now: nat)
      requires CacheOk(frameCache, minFid)
      modifies this
      ensures View() == Drain(old(View()), now) && stop == old(stop)
    {
      var waiting := false;
      while frameCache != map[] && !waiting
        invariant CacheOk(frameCache, minFid)
        invariant Drain(old(View()), now) == Drain(View(), now)
        invariant waiting ==> !HeadReady(View(), now)
        invariant stop == old(stop)
        decreases |frameCache|, !waiting
      {
        var fid := Least(frameCache.Keys);
        var frame := frameCache[fid];
        HeadRemoved(frameCache, minFid);
        if frame.recv == frame.total || (frame.recv < frame.total && frame.waittingTs != -1 && Expired(frame, now)) {
          TakeFrame(fid, frame);
        } else {
          waiting := true;
        }
      }
    }

    /** One turn: deliver, consume, forget, recycle. */
    method TakeFrame(fid: nat, frame: Frame)
      requires frameCache != map[] && fid == Least(frameCache.Keys) && frame == frameCache[fid]
      requires |frame.packets| == frame.total
      modifies this
      ensures View() == TakeHead(old(View())) && stop == old(stop)
    {
      var taken := DeliverFrame(fid, frame);
      PacketConsumed(frame);
      frameCache := frameCache - {fid};
      BuffCollection(frame);
      if !taken {
        lost := lost + Weight(frame.packets);
      }
    }

    /** Puts a wanted segment into its frame, in a recycled buffer if there is one. */
    method StoreSegment(a: Arrival)
      requires Fits(frameCache, a.seg) && !Unwanted(View(), a.seg)
      modifies this
      ensures View() == Store(old(View()), a) && stop == old(stop)
    {
      var d := a.seg;
      var frame := if d.fid in frameCache then frameCache[d.fid] else NewFrame(d);
      if freeSegs > 0 {
        freeSegs := freeSegs - 1;
      } else {
        segC := segC + 1;
      }
      if frame.firstTs == 0 {
        frame := frame.(firstTs := a.now);
        if frameInfoCb {
          frame := frame.(frameFirstTs := a.firstTs, frameTimestamp := d.timestamp);
        }
      }
      recvBufLen := recvBufLen + |d.data| + SIM_SEGMENT_HEADER_SIZE;
      frame := frame.(ts := a.now, recv := frame.recv + 1, packets := frame.packets[d.index := Full(Packet(a.pid, d))]);
      if frame.recv < frame.total && frame.waittingTs != -1 {
        frame := frame.(waittingTs := (a.now + a.wait) % TWO32);
      }
      frameCache := frameCache[d.fid := frame];
    }

    /** A segment comes in on a path. */
    method DeliverToCache(a: Arrival)
      requires Good(View()) && Fits(frameCache, a.seg)
      modifies this
      ensures Good(View()) && stop == old(stop)
      ensures View() == if old(stop) then old(View()) else Take(old(View()), a)
    {
      if stop {
        return;
      }
      TakeGood(View(), a);
      if a.seg.fid <= minFid {
        return;
      }
      if FrameFor(frameCache, a.seg).packets[a.seg.index].Full? {
        return;
      }
      StoreGood(View(), a);
      StoreSegment(a);
      CheckDeliverFrame(a.now);
    }

    /** The heartbeat. */
    method Process(now: nat)
      requires Good(View())
      modifies this
      ensures Good(View()) && stop == old(stop)
      ensures View() == if stop then old(View()) else Drain(old(View()), now)
    {
      if stop {
        return;
      }
      DrainGood(View(), now);
      CheckDeliverFrame(now);
    }
  }

  method BufferSize(ps: seq<Slot>) returns (n: nat)
    ensures n == |Payload(ps)|
  {
    n := 0;
    var i := 0;
    while i < |ps|
      invariant i <= |ps| && n == |Payload(ps[..i])|
    {
      assert ps[..i + 1][..i] == ps[..i];
      if ps[i].Full? {
        n := n + |ps[i].packet.seg.data|;
      }
      i := i + 1;
    }
    TakeAll(ps);
  }

  lemma {:induction false} PayloadFits(ps: seq<Slot>, i: nat)
    requires i <= |ps|
    ensures |Payload(ps[..i])| <= |Payload(ps)|
    decreases |ps| - i
  {
    if i < |ps| {
      assert ps[..i + 1][..i] == ps[..i];
      PayloadFits(ps, i + 1);
    } else {
      assert ps[..i] == ps;
    }
  }
}
