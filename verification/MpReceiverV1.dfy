/** The first-version receiver: frames complete or give up, strictly in order. */
module MpReceiverV1 {
  import opened Arithmetic
  import opened Ordered

  const MAX_FRAME_WAIT := 300

  /** VideoFrameBuffer; `indices` are the keys of its packet map. */
  datatype FrameBuffer = FrameBuffer(ftype: int, total: nat, received: nat, maxRecvTs: nat, indices: set<nat>,
                                     isCompleted: bool)

  datatype Packet = Packet(fid: nat, index: nat, total: nat, ftype: int)

  /** What is reported of a frame when it leaves. */
  datatype Delivery = Delivery(fid: nat, received: nat, total: nat, complete: bool)

  predicate IsExpired(f: FrameBuffer, now: nat) {
    (now - f.maxRecvTs) % TWO32 > MAX_FRAME_WAIT
  }

  function OnNewPacket(f: FrameBuffer, index: nat, ts: nat): FrameBuffer {
    if index in f.indices then f
    else
      f.(maxRecvTs := ts, indices := f.indices + {index}, received := f.received + 1,
         isCompleted := f.isCompleted || f.received + 1 == f.total)
  }

  // ---- what arrived ----

  /** One packet that came in while its frame could still be delivered. */
  datatype Arrival = Arrival(packet: Packet, ts: nat)

  /** The indices that came in for a frame. */
  ghost function Indices(h: seq<Arrival>, fid: nat): set<nat> {
    if h == [] then {}
    else
      var a := h[|h| - 1];
      Indices(h[..|h| - 1], fid) + if a.packet.fid == fid then {a.packet.index} else {}
  }

  /** When the last index that was new to a frame came in. */
  ghost function LastNew(h: seq<Arrival>, fid: nat): nat {
    if h == [] then 0
    else
      var front, a := h[..|h| - 1], h[|h| - 1];
      if a.packet.fid == fid && a.packet.index !in Indices(front, fid) then a.ts else LastNew(front, fid)
  }

  /** The total that the first packet of a frame to come in gave. */
  ghost function FirstTotal(h: seq<Arrival>, fid: nat): nat {
    if h == [] then 0
    else
      var front, a := h[..|h| - 1], h[|h| - 1];
      if a.packet.fid == fid && Indices(front, fid) == {} then a.packet.total else FirstTotal(front, fid)
  }

  /** As many packets as the total, which is no total if it is 0. */
  predicate Enough(received: nat, total: nat) {
    0 < total <= received
  }

  /** Senders number the packets of a frame below a total they agree on. */
  ghost predicate Consistent(h: seq<Arrival>, totals: map<nat, nat>) {
    forall k :: 0 <= k < |h| ==> ConsistentPacket(h[k].packet, totals)
  }

  predicate ConsistentPacket(p: Packet, totals: map<nat, nat>) {
    p.fid in totals && p.total == totals[p.fid] && p.index < p.total
  }

  /** A cached frame is what came in for it. */
  ghost predicate Mirrors(h: seq<Arrival>, fid: nat, f: FrameBuffer) {
    && f.total == FirstTotal(h, fid)
    && f.indices == Indices(h, fid) && f.received == |f.indices| && f.indices != {}
    && f.maxRecvTs == LastNew(h, fid)
    && (f.isCompleted <==> Enough(f.received, f.total))
  }

  /** A frame left either with enough packets, or when no new one had come for too long. */
  ghost predicate Justified(h: seq<Arrival>, d: Delivery, now: nat) {
    && Indices(h, d.fid) != {}
    && d.total == FirstTotal(h, d.fid) && d.received == |Indices(h, d.fid)|
    && (d.complete <==> Enough(d.received, d.total))
    && (!d.complete ==> (now - LastNew(h, d.fid)) % TWO32 > 300)
  }

  ghost predicate Bounded(s: set<nat>, n: nat) {
    forall x :: x in s ==> x < n
  }

  /** Every number below n is there. */
  ghost predicate HoldsAll(s: set<nat>, n: nat) {
    forall x: nat :: x < n ==> x in s
  }

  lemma {:induction false} BoundedSize(s: set<nat>, n: nat)
    requires Bounded(s, n)
    ensures |s| <= n
    ensures |s| == n <==> HoldsAll(s, n)
    decreases n
  {
    if n == 0 {
      assert s == {};
    } else {
      var rest := s - {n - 1};
      BoundedSize(rest, n - 1);
      if n - 1 in s {
        assert |s| == |rest| + 1;
        if |s| == n {
          forall x: nat | x < n ensures x in s {
            assert x == n - 1 || x in rest;
          }
        } else {
          assert exists x: nat :: x < n - 1 && x !in rest;
        }
      } else {
        assert s == rest;
      }
    }
  }

  lemma {:induction false} IndicesBounded(h: seq<Arrival>, totals: map<nat, nat>, fid: nat)
    requires Consistent(h, totals) && fid in totals
    ensures Bounded(Indices(h, fid), totals[fid])
    decreases |h|
  {
    if h != [] {
      IndicesBounded(h[..|h| - 1], totals, fid);
      assert ConsistentPacket(h[|h| - 1].packet, totals);
    }
  }

  lemma {:induction false} FirstTotalAgreed(h: seq<Arrival>, totals: map<nat, nat>, fid: nat)
    requires Consistent(h, totals) && Indices(h, fid) != {}
    ensures fid in totals && FirstTotal(h, fid) == totals[fid] > 0
    decreases |h|
  {
    assert ConsistentPacket(h[|h| - 1].packet, totals);
    if Indices(h[..|h| - 1], fid) != {} {
      FirstTotalAgreed(h[..|h| - 1], totals, fid);
    }
  }

  /** Where senders agree on totals, a delivery is complete exactly when every packet of the
      frame had come in. */
  lemma CompleteIff(h: seq<Arrival>, totals: map<nat, nat>, d: Delivery, now: nat)
    requires Consistent(h, totals) && Justified(h, d, now)
    ensures d.complete <==> HoldsAll(Indices(h, d.fid), d.total)
    ensures d.received <= d.total
  {
    FirstTotalAgreed(h, totals, d.fid);
    IndicesBounded(h, totals, d.fid);
    BoundedSize(Indices(h, d.fid), d.total);
  }

  lemma NextArrival(h: seq<Arrival>, a: Arrival, fid: nat)
    ensures Indices(h + [a], fid) == Indices(h, fid) + if a.packet.fid == fid then {a.packet.index} else {}
    ensures LastNew(h + [a], fid) == if a.packet.fid == fid && a.packet.index !in Indices(h, fid) then a.ts
                                     else LastNew(h, fid)
    ensures FirstTotal(h + [a], fid) == if a.packet.fid == fid && Indices(h, fid) == {} then a.packet.total
                                        else FirstTotal(h, fid)
  {
    var g := h + [a];
    assert g[..|g| - 1] == h && g[|g| - 1] == a;
  }

  lemma PacketMirrored(h: seq<Arrival>, f: FrameBuffer, a: Arrival)
    requires if Indices(h, a.packet.fid) == {} then f == FrameBuffer(a.packet.ftype, a.packet.total, 0, 0, {}, false)
             else Mirrors(h, a.packet.fid, f)
    ensures Mirrors(h + [a], a.packet.fid, OnNewPacket(f, a.packet.index, a.ts))
  {
    NextArrival(h, a, a.packet.fid);
    if a.packet.index !in f.indices {
      assert |f.indices + {a.packet.index}| == |f.indices| + 1;
    } else {
      assert f.indices + {a.packet.index} == f.indices;
    }
  }

  // ---- what every step keeps ----

  /** A cached frame is above the late mark and mirrors what came in; of any other frame above it, nothing came in. */
  ghost predicate FrameAt(h: seq<Arrival>, frames: map<nat, FrameBuffer>, late: nat, fid: nat) {
    if fid in frames then fid > late && Mirrors(h, fid, frames[fid])
    else fid > late ==> Indices(h, fid) == {}
  }

  ghost predicate Framed(h: seq<Arrival>, frames: map<nat, FrameBuffer>, late: nat) {
    forall fid: nat :: FrameAt(h, frames, late, fid)
  }

  function Buffer(frames: map<nat, FrameBuffer>, p: Packet): FrameBuffer {
    if p.fid in frames then frames[p.fid] else FrameBuffer(p.ftype, p.total, 0, 0, {}, false)
  }

  lemma ArrivalFramed(h: seq<Arrival>, frames: map<nat, FrameBuffer>, late: nat, a: Arrival)
    requires Framed(h, frames, late) && a.packet.fid > late
    ensures Framed(h + [a],
                   frames[a.packet.fid := OnNewPacket(Buffer(frames, a.packet), a.packet.index, a.ts)], late)
  {
    var f := Buffer(frames, a.packet);
    var frames' := frames[a.packet.fid := OnNewPacket(f, a.packet.index, a.ts)];
    assert FrameAt(h, frames, late, a.packet.fid);
    PacketMirrored(h, f, a);
    forall k: nat ensures FrameAt(h + [a], frames', late, k) {
      assert FrameAt(h, frames, late, k);
      NextArrival(h, a, k);
    }
  }

  lemma DeliverFramed(h: seq<Arrival>, frames: map<nat, FrameBuffer>, late: nat)
    requires Framed(h, frames, late) && frames != map[]
    ensures var fid := Least(frames.Keys); fid > late && Framed(h, frames - {fid}, fid)
  {
    var fid := Least(frames.Keys);
    assert FrameAt(h, frames, late, fid);
    forall k: nat ensures FrameAt(h, frames - {fid}, fid, k) {
      assert FrameAt(h, frames, late, k);
      assert k in frames ==> k in frames.Keys;
    }
  }

  /** Frame ids leave in rising order, up to the late mark. */
  ghost predicate Rising(log: seq<Delivery>, late: nat) {
    && (forall i, j :: 0 <= i < j < |log| ==> log[i].fid < log[j].fid)
    && (forall i :: 0 <= i < |log| ==> log[i].fid <= late)
  }

  lemma RisesOn(log: seq<Delivery>, late: nat, d: Delivery)
    requires Rising(log, late) && d.fid > late
    ensures Rising(log + [d], d.fid)
  {
  }

  /** All deliveries from place n on are justified at one time. */
  ghost predicate JustifiedFrom(h: seq<Arrival>, log: seq<Delivery>, n: nat, now: nat) {
    forall i :: n <= i < |log| ==> Justified(h, log[i], now)
  }

  class Receiver {
    var frames: map<nat, FrameBuffer>
    var deliveredFid: nat
    var runing: bool
    /** What was reported of frames that left. */
    var delivered: seq<Delivery>
    /** Everything that came in in time. */
    ghost var arrived: seq<Arrival>

    ghost predicate Valid()
      reads this
    {
      Framed(arrived, frames, deliveredFid) && Rising(delivered, deliveredFid)
    }

    constructor ()
      ensures Valid() && frames == map[] && deliveredFid == 0 && delivered == [] && arrived == [] && runing
    {
      frames, deliveredFid, runing, delivered, arrived := map[], 0, true, [], [];
    }

    method OnVideoPacket(packet: Packet, now: nat)
      requires Valid()
      modifies this
      ensures Valid() && deliveredFid == old(deliveredFid) && delivered == old(delivered) && runing == old(runing)
      ensures arrived == if runing && packet.fid > deliveredFid then old(arrived) + [Arrival(packet, now)]
                         else old(arrived)
    {
      if !runing {
        return;
      }
      if packet.fid <= deliveredFid {
        return;
      }
      ArrivalFramed(arrived, frames, deliveredFid, Arrival(packet, now));
      frames := frames[packet.fid := OnNewPacket(Buffer(frames, packet), packet.index, now)];
      arrived := arrived + [Arrival(packet, now)];
    }

    /** Frames leave from the head: complete, or given up. */
    method CheckDeliverable(now: nat)
      requires Valid()
      modifies this
      ensures Valid() && arrived == old(arrived) && runing == old(runing)
      ensures old(delivered) <= delivered
      ensures !runing ==> delivered == old(delivered) && frames == old(frames)
      ensures JustifiedFrom(arrived, delivered, |old(delivered)|, now)
      ensures runing && frames != map[] ==> HeadWaits(now)
    {
      if !runing {
        return;
      }
      while frames != map[]
        invariant Valid() && arrived == old(arrived) && runing
        invariant old(delivered) <= delivered
        invariant JustifiedFrom(arrived, delivered, |old(delivered)|, now)
        decreases |frames|
      {
        var fid := Least(frames.Keys);
        var frame := frames[fid];
        if frame.isCompleted {
          Deliver(fid, frame, true, now);
        } else if IsExpired(frame, now) {
          Deliver(fid, frame, false, now);
        } else {
          assert FrameAt(arrived, frames, deliveredFid, fid);
          break;
        }
      }
    }

    /** The frame at the head lacks packets, and a new one came in not long ago. */
    ghost predicate HeadWaits(now: nat)
      requires frames != map[]
      reads this
    {
      var fid := Least(frames.Keys);
      !Enough(|Indices(arrived, fid)|, FirstTotal(arrived, fid)) && (now - LastNew(arrived, fid)) % TWO32 <= 300
    }

    method Deliver(fid: nat, frame: FrameBuffer, complete: bool, now: nat)
      requires Valid() && frames != map[] && fid == Least(frames.Keys) && frame == frames[fid]
      requires (complete <==> frame.isCompleted) && (complete || (now - frame.maxRecvTs) % TWO32 > 300)
      modifies this`delivered, this`deliveredFid, this`frames
      ensures Valid() && |frames| < |old(frames)|
      ensures frames == old(frames) - {fid}
      ensures delivered == old(delivered) + [Delivery(fid, frame.received, frame.total, complete)]
      ensures Justified(arrived, Delivery(fid, frame.received, frame.total, complete), now)
    {
      DeliverFramed(arrived, frames, deliveredFid);
      assert FrameAt(arrived, frames, deliveredFid, fid);
      RisesOn(delivered, deliveredFid, Delivery(fid, frame.received, frame.total, complete));
      assert |(frames - {fid}).Keys| < |frames.Keys|;
      delivered := delivered + [Delivery(fid, frame.received, frame.total, complete)];
      deliveredFid := fid;
      frames := frames - {fid};
    }
  }
}
