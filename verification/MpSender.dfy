/** The sending end of all paths: cutting frames, offering packets to the scheduler,
    and handing each to the path it was given to. */
module MpSender {
  import opened Arithmetic
  import opened Bytes
  import opened Ordered
  import opened Outbox
  import opened Reassembly
  import opened Schedule
  import opened SegmentCodec
  import opened Splitting

  /** What the segments of one frame have in common. */
  datatype Shot = Shot(fid: U32, timestamp: U32, ftype: Byte, payloadType: Byte, data: seq<Byte>)

  function ShotAt(fid: U32, now: nat, firstTs: int, ftype: Byte, payloadType: Byte, data: seq<Byte>): Shot {
    Shot(fid, (now - firstTs) % TWO32, ftype, payloadType, data)
  }

  /** The segment cut from the i-th piece of a frame. */
  function Piece(s: Shot, i: nat): (seg: Segment)
    requires i < |Cut(s.data)| < 0x1_0000
  {
    Segment(0, s.fid, s.timestamp, i, |Cut(s.data)|, s.ftype, s.payloadType, 1, 0, 0, Cut(s.data)[i])
  }

  /** The pieces of a frame under consecutive schedule ids. */
  function Pieces(s: Shot, seed: nat, n: nat): map<nat, Segment>
    requires n <= |Cut(s.data)| < 0x1_0000
  {
    if n == 0 then map[] else Pieces(s, seed, n - 1)[seed + n - 1 := Piece(s, n - 1)]
  }

  lemma {:induction false} PiecesAt(s: Shot, seed: nat, n: nat, id: nat)
    requires n <= |Cut(s.data)| < 0x1_0000
    ensures id in Pieces(s, seed, n) <==> seed <= id < seed + n
    ensures seed <= id < seed + n ==> Pieces(s, seed, n)[id] == Piece(s, id - seed)
  {
    if n > 0 {
      PiecesAt(s, seed, n - 1, id);
    }
  }

  /** A segment's timestamp is, in 32 bits, the time from the sender's first frame to its own. */
  lemma PieceStamped(s: Shot, fid: U32, now: nat, firstTs: int, ftype: Byte, payloadType: Byte, data: seq<Byte>,
                     seed: nat, n: nat, id: nat)
    requires s == ShotAt(fid, now, firstTs, ftype, payloadType, data)
    requires n <= |Cut(data)| < 0x1_0000 && seed <= id < seed + n
    ensures id in Pieces(s, seed, n)
    ensures var seg := Pieces(s, seed, n)[id];
            && seg.timestamp < TWO32 && (firstTs + seg.timestamp - now) % TWO32 == 0
            && seg.fid == fid && seg.ftype == ftype && seg.payloadType == payloadType
            && seg.index == id - seed && seg.total == |Cut(data)| && seg.data == Cut(data)[id - seed]
            && seg.packetId == seg.sendTs == seg.transportSeq == 0 && seg.remb == 1
  {
    PiecesAt(s, seed, n, id);
  }

  function Lengths(pending: map<nat, Segment>): (info: map<nat, nat>) {
    map id | id in pending :: |pending[id].data| + SIM_SEGMENT_HEADER_SIZE
  }

  /** Every segment sent is one the receiver's guarantees are about. */
  lemma PieceGenuine(sources: map<nat, Source>, s: Shot, i: nat)
    requires i < |Cut(s.data)| < 0x1_0000
    requires s.fid in sources && sources[s.fid] == Source(s.data, s.ftype)
    ensures Genuine(sources, Piece(s, i))
  {
  }

  lemma CutBounded(data: seq<Byte>)
    requires |data| / SIM_VIDEO_SIZE < MAX_SPLIT_NUMBER
    ensures |Cut(data)| <= MAX_SPLIT_NUMBER
  {
    SplitCount(|data|);
    CutEntry(data, 0);
  }

  /** The put calls that the first t calls of a schedule lead to. */
  ghost function Puts(pending: map<nat, Segment>, calls: seq<Assignment>, t: nat): (puts: seq<(nat, Segment)>)
    requires t <= |calls| && AllPending(pending, PacketIds(calls))
  {
    if t == 0 then []
    else
      assert PacketIds(calls)[t - 1] in pending;
      Puts(pending, calls, t - 1) + [(calls[t - 1].pid, pending[calls[t - 1].packet])]
  }

  /** Goes through the pending packets in order, noting and adding up their lengths. */
  method Tally(pending: map<nat, Segment>, keys: seq<nat>) returns (info: map<nat, nat>, total: nat)
    requires Increasing(keys) && AllIn(keys, Lengths(pending))
    ensures info == Part(Lengths(pending), keys, |keys|) && total == Sum(info)
  {
    ghost var lengths := Lengths(pending);
    info, total := map[], 0;
    var i := 0;
    while i < |keys|
      invariant i <= |keys|
      invariant info == Part(lengths, keys, i) && total == Sum(info)
    {
      assert keys[i] in lengths;
      var len := |pending[keys[i]].data| + SIM_SEGMENT_HEADER_SIZE;
      PartNext(lengths, keys, i);
      info := info[keys[i] := len];
      total := total + len;
      i := i + 1;
    }
  }

  class MultipathSender {
    var frameSeed: U32
    var scheduleSeed: nat
    var pendingBuf: map<nat, Segment>
    var usablePath: set<nat>
    var firstTs: int
    var stop: bool
    /** The put(segment) calls made on the paths. */
    var handed: seq<(nat, Segment)>

    /** Ids are handed out in order, so a new one is never pending. */
    ghost predicate Valid()
      reads this
    {
      forall id :: id in pendingBuf ==> id < scheduleSeed
    }

    constructor ()
      ensures Valid() && pendingBuf == map[] && usablePath == {} && handed == [] && firstTs == -1 && !stop
      ensures frameSeed == scheduleSeed == 1
    {
      frameSeed, scheduleSeed, pendingBuf, usablePath, firstTs, stop, handed := 1, 1, map[], {}, -1, false, [];
    }

    /** What is pending and what it adds up to, as the scheduler is told. */
    method SchedulePendingBuf() returns (info: map<nat, nat>, total: nat)
      ensures info == Lengths(pendingBuf) && total == Sum(info)
    {
      var keys := Keys(pendingBuf.Keys);
      assert Lengths(pendingBuf).Keys == pendingBuf.Keys;
      PartAll(Lengths(pendingBuf), keys);
      info, total := Tally(pendingBuf, keys);
    }

    /** Cuts a frame into pending segments and offers everything pending to the scheduler. */
    method SendVideo(payloadType: Byte, ftype: Byte, data: seq<Byte>, now: nat)
        returns (info: map<nat, nat>, total: nat)
      requires Valid() && |data| / SIM_VIDEO_SIZE < MAX_SPLIT_NUMBER
      requires frameSeed < 0xffff_ffff
      modifies this
      ensures Valid() && usablePath == old(usablePath) && handed == old(handed) && stop == old(stop)
      ensures |Cut(data)| <= MAX_SPLIT_NUMBER
      ensures stop ==> pendingBuf == old(pendingBuf) && frameSeed == old(frameSeed) && info == map[] && total == 0
      ensures !stop ==>
                && firstTs == (if old(firstTs) == -1 then now else old(firstTs))
                && frameSeed == old(frameSeed) + 1 && scheduleSeed == old(scheduleSeed) + |Cut(data)|
                && pendingBuf
                   == old(pendingBuf) + Pieces(ShotAt(old(frameSeed), now, firstTs, ftype, payloadType, data),
                                               old(scheduleSeed), |Cut(data)|)
                && info == Lengths(pendingBuf) && total == Sum(info)
    {
      info, total := map[], 0;
      CutBounded(data);
      if stop {
        return;
      }
      if firstTs == -1 {
        firstTs := now;
      }
      OfferShot(ShotAt(frameSeed, now, firstTs, ftype, payloadType, data));
      info, total := SchedulePendingBuf();
    }

    /** The segments of a frame become pending, and its id is used up. */
    method OfferShot(s: Shot)
      requires Valid() && |s.data| / SIM_VIDEO_SIZE < MAX_SPLIT_NUMBER && |Cut(s.data)| <= MAX_SPLIT_NUMBER
      requires frameSeed < 0xffff_ffff
      modifies this`pendingBuf, this`scheduleSeed, this`frameSeed
      ensures Valid() && scheduleSeed == old(scheduleSeed) + |Cut(s.data)| && frameSeed == old(frameSeed) + 1
      ensures pendingBuf == old(pendingBuf) + Pieces(s, old(scheduleSeed), |Cut(s.data)|)
    {
      QueueShot(s);
      frameSeed := frameSeed + 1;
    }

    method QueueShot(s: Shot)
      requires Valid() && |s.data| / SIM_VIDEO_SIZE < MAX_SPLIT_NUMBER && |Cut(s.data)| <= MAX_SPLIT_NUMBER
      modifies this`pendingBuf, this`scheduleSeed
      ensures Valid() && scheduleSeed == old(scheduleSeed) + |Cut(s.data)|
      ensures pendingBuf == old(pendingBuf) + Pieces(s, old(scheduleSeed), |Cut(s.data)|)
    {
      var splits := new U16[MAX_SPLIT_NUMBER];
      var n := FrameSplit(splits, |s.data|);
      CutEntry(s.data, 0);
      QueuePieces(s, splits, n);
    }

    method QueuePieces(s: Shot, splits: array<U16>, n: nat)
      requires Valid() && n == |Cut(s.data)| <= splits.Length < 0x1_0000
      requires splits[..n] == SplitSizes(|s.data|)
      modifies this`pendingBuf, this`scheduleSeed
      ensures Valid() && scheduleSeed == old(scheduleSeed) + n
      ensures pendingBuf == old(pendingBuf) + Pieces(s, old(scheduleSeed), n)
    {
      var pos: nat, i: nat := 0, 0;
      while i < n
        invariant i <= n && Valid() && scheduleSeed == old(scheduleSeed) + i
        invariant i < n ==> pos == i * SIM_VIDEO_SIZE
        invariant pendingBuf == old(pendingBuf) + Pieces(s, old(scheduleSeed), i)
      {
        var size := splits[i];
        assert size == splits[..n][i];
        PieceOffsets(s.data, i);
        var seg := Segment(0, s.fid, s.timestamp, i, n, s.ftype, s.payloadType, 1, 0, 0, s.data[pos..pos + size]);
        pendingBuf := pendingBuf[scheduleSeed := seg];
        scheduleSeed := scheduleSeed + 1;
        pos := pos + size;
        i := i + 1;
      }
    }

    /** The scheduler gives a packet to a path. */
    method PacketSchedule(scheduleId: nat, pid: nat)
      requires Valid()
      modifies this`pendingBuf, this`handed
      ensures Valid() && pendingBuf == old(pendingBuf) - {scheduleId}
      ensures handed == old(handed) + (if scheduleId in old(pendingBuf) && pid in usablePath
                                       then [(pid, old(pendingBuf)[scheduleId])] else [])
    {
      if scheduleId in pendingBuf {
        var seg := pendingBuf[scheduleId];
        pendingBuf := pendingBuf - {scheduleId};
        if pid in usablePath {
          handed := handed + [(pid, seg)];
        }
      }
    }

    /** All calls of one schedule: what is offered once and given to usable paths is
        handed over once, and nothing stays pending. */
    method RunSchedule(calls: seq<Assignment>)
      requires Valid() && EachPacketOnce(calls, Lengths(pendingBuf))
      requires forall t :: 0 <= t < |calls| ==> calls[t].pid in usablePath
      modifies this`pendingBuf, this`handed
      ensures pendingBuf == map[] && |calls| == |old(pendingBuf)|
      ensures AllPending(old(pendingBuf), PacketIds(calls))
      ensures handed == old(handed) + Puts(old(pendingBuf), calls, |calls|)
    {
      assert Lengths(pendingBuf).Keys == pendingBuf.Keys;
      AllMoved(map[], pendingBuf, PacketIds(calls));
      RunCalls(calls);
    }

    method RunCalls(calls: seq<Assignment>)
      requires Valid() && Increasing(PacketIds(calls)) && AllPending(pendingBuf, PacketIds(calls))
      requires forall t :: 0 <= t < |calls| ==> calls[t].pid in usablePath
      modifies this`pendingBuf, this`handed
      ensures Valid() && pendingBuf == Less(old(pendingBuf), PacketIds(calls))
      ensures handed == old(handed) + Puts(old(pendingBuf), calls, |calls|)
    {
      ghost var ids, pending := PacketIds(calls), pendingBuf;
      var t := 0;
      while t < |calls|
        invariant t <= |calls| && Valid()
        invariant pendingBuf == Less(pending, ids[..t])
        invariant handed == old(handed) + Puts(pending, calls, t)
      {
        NextPending(pending, ids, t);
        PacketSchedule(calls[t].packet, calls[t].pid);
        t := t + 1;
      }
      assert ids[..t] == ids;
    }
  }
}
