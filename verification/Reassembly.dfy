/** What the multipath receiver's cache should hold, as values: frames being put
    together, what arrived, and what may be delivered. */
module Reassembly {
  import opened Bytes
  import opened SegmentCodec
  import opened Splitting

  const MAX_FRAME_WAITTING := 1000

  /** video_packet_t */
  datatype Packet = Packet(pid: nat, seg: Segment)

  datatype Slot = Empty | Full(packet: Packet)

  /** video_frame_t */
  datatype Frame = Frame(
    total: nat, recv: nat, frameType: Byte, firstTs: nat, ts: nat, waittingTs: int,
    frameFirstTs: int, frameTimestamp: nat, packets: seq<Slot>)

  /** What the sink is handed. */
  datatype Delivery = Delivery(fid: nat, data: seq<Byte>, recv: nat, total: nat)

  // ---- slots ----

  function Present(ps: seq<Slot>): (n: nat)
    ensures n <= |ps|
  {
    if ps == [] then 0 else Present(ps[..|ps| - 1]) + (if ps[|ps| - 1].Full? then 1 else 0)
  }

  function Bulk(p: Packet): nat {
    |p.seg.data| + SIM_SEGMENT_HEADER_SIZE
  }

  /** The bytes that cached packets count for. */
  function Weight(ps: seq<Slot>): nat {
    if ps == [] then 0
    else Weight(ps[..|ps| - 1]) + (if ps[|ps| - 1].Full? then Bulk(ps[|ps| - 1].packet) else 0)
  }

  /** What arrived, in index order. */
  function Payload(ps: seq<Slot>): seq<Byte> {
    if ps == [] then []
    else Payload(ps[..|ps| - 1]) + (if ps[|ps| - 1].Full? then ps[|ps| - 1].packet.seg.data else [])
  }

  /** The (path, packet id) pairs to be consumed, in index order. */
  function Ids(ps: seq<Slot>): seq<(nat, nat)> {
    if ps == [] then []
    else Ids(ps[..|ps| - 1])
         + (if ps[|ps| - 1].Full? then [(ps[|ps| - 1].packet.pid, ps[|ps| - 1].packet.seg.packetId)] else [])
  }

  lemma {:induction false} FillSlot(ps: seq<Slot>, i: nat, p: Packet)
    requires i < |ps| && ps[i].Empty?
    ensures Present(ps[i := Full(p)]) == Present(ps) + 1
    ensures Weight(ps[i := Full(p)]) == Weight(ps) + Bulk(p)
    decreases |ps|
  {
    var k := |ps| - 1;
    var qs := ps[i := Full(p)];
    if i < k {
      FillSlot(ps[..k], i, p);
      assert qs[..k] == ps[..k][i := Full(p)];
    } else {
      assert qs[..k] == ps[..k];
    }
  }

  lemma {:induction false} AllPresent(ps: seq<Slot>)
    ensures Present(ps) == |ps| <==> forall i :: 0 <= i < |ps| ==> ps[i].Full?
    decreases |ps|
  {
    if ps != [] {
      AllPresent(ps[..|ps| - 1]);
      assert forall i :: 0 <= i < |ps| - 1 ==> ps[..|ps| - 1][i] == ps[i];
    }
  }

  lemma {:induction false} NonePresent(ps: seq<Slot>)
    requires forall i :: 0 <= i < |ps| ==> ps[i].Empty?
    ensures Present(ps) == 0 && Weight(ps) == 0
    decreases |ps|
  {
    if ps != [] {
      NonePresent(ps[..|ps| - 1]);
    }
  }

  lemma {:induction false} IdsAreSlots(ps: seq<Slot>, id: (nat, nat))
    requires id in Ids(ps)
    ensures exists i :: 0 <= i < |ps| && ps[i].Full? && (ps[i].packet.pid, ps[i].packet.seg.packetId) == id
    decreases |ps|
  {
    if ps != [] {
      var k := |ps| - 1;
      if id in Ids(ps[..k]) {
        IdsAreSlots(ps[..k], id);
        var i :| 0 <= i < k && ps[..k][i].Full? && (ps[..k][i].packet.pid, ps[..k][i].packet.seg.packetId) == id;
        assert ps[i].Full? && (ps[i].packet.pid, ps[i].packet.seg.packetId) == id;
      } else {
        assert ps[k].Full?;
      }
    }
  }

  // ---- genuine traffic ----

  /** A frame as its sender had it. */
  datatype Source = Source(data: seq<Byte>, ftype: Byte)

  /** A segment that a sender cut from the frame its id names. */
  predicate Genuine(sources: map<nat, Source>, seg: Segment) {
    && seg.fid in sources
    && var pieces := Cut(sources[seg.fid].data);
       && seg.index < |pieces| && seg.total == |pieces|
       && seg.data == pieces[seg.index]
       && seg.ftype == sources[seg.fid].ftype
  }

  lemma CarriedGenuine(sources: map<nat, Source>, seg: Segment)
    requires Genuine(sources, seg) && seg.ftype <= 1
    ensures |seg.data| <= SIM_VIDEO_SIZE && Genuine(sources, Carried(seg))
  {
  }

  /** A genuine segment is still genuine after its trip over the wire. */
  lemma GenuineCarried(sources: map<nat, Source>, seg: Segment, rest: seq<Byte>)
    requires Genuine(sources, seg) && seg.ftype <= 1
    ensures |seg.data| <= SIM_VIDEO_SIZE
    ensures DecodeSegment(EncodeSegment(seg) + rest).1 == rest
    ensures Genuine(sources, DecodeSegment(EncodeSegment(seg) + rest).0)
  {
    CarriedGenuine(sources, seg);
    SegmentRoundTrip(seg, rest);
  }

  predicate SlotFits(fid: nat, i: nat, s: Slot) {
    s.Full? ==> s.packet.seg.fid == fid && s.packet.seg.index == i
  }

  predicate SlotGenuine(sources: map<nat, Source>, s: Slot) {
    s.Full? ==> Genuine(sources, s.packet.seg)
  }

  /** The slots that are full hold the pieces of the frame at their places. */
  ghost predicate HoldsPieces(sources: map<nat, Source>, fid: nat, ps: seq<Slot>) {
    && fid in sources
    && |ps| == |Cut(sources[fid].data)|
    && (forall i :: 0 <= i < |ps| ==> SlotFits(fid, i, ps[i]) && SlotGenuine(sources, ps[i]))
  }

  lemma {:induction false} FullSlotsJoin(ps: seq<Slot>, pieces: seq<seq<Byte>>, k: nat)
    requires k <= |ps| == |pieces|
    requires forall i :: 0 <= i < k ==> ps[i].Full? && ps[i].packet.seg.data == pieces[i]
    ensures Payload(ps[..k]) == Join(pieces[..k])
    decreases k
  {
    if k > 0 {
      FullSlotsJoin(ps, pieces, k - 1);
      assert ps[..k][..k - 1] == ps[..k - 1];
      JoinPrefix(pieces, k - 1);
    }
  }

  /** A complete frame of genuine pieces is, byte for byte, the frame that was sent. */
  lemma CompleteIsOriginal(sources: map<nat, Source>, fid: nat, ps: seq<Slot>)
    requires HoldsPieces(sources, fid, ps) && Present(ps) == |ps|
    ensures Payload(ps) == sources[fid].data
  {
    var pieces := Cut(sources[fid].data);
    AllPresent(ps);
    assert forall i :: 0 <= i < |ps| ==> SlotFits(fid, i, ps[i]) && SlotGenuine(sources, ps[i]);
    FullSlotsJoin(ps, pieces, |ps|);
    assert ps[..|ps|] == ps && pieces[..|ps|] == pieces;
    JoinCut(sources[fid].data);
  }
}
