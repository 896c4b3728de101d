/** The first-version sender as an object over its paths. */
module MpSenderV1 {
  import opened Bytes
  import opened RetransV1
  import opened Ordered
  import opened Outbox
  import opened PathSenderV1
  import opened Schedule
  import opened SegmentCodec
  import opened Splitting

  /** The packets of the given ids that are still kept, in that order. */
  function Kept(sent: map<nat, VideoPacket>, ids: seq<nat>): seq<VideoPacket> {
    if ids == [] then []
    else
      var id := ids[|ids| - 1];
      Kept(sent, ids[..|ids| - 1]) + (if id in sent then [sent[id]] else [])
  }

  /** An OnVideoPacket call on a path. */
  datatype Call = Call(pid: nat, packet: VideoPacket, isRetrans: bool)

  /** The calls that send packets again on one path - none, if it is not usable. */
  function Resent(usable: set<nat>, pid: nat, packets: seq<VideoPacket>): (calls: seq<Call>) {
    if pid !in usable || packets == [] then []
    else Resent(usable, pid, packets[..|packets| - 1]) + [Call(pid, packets[|packets| - 1], true)]
  }

  lemma {:induction false} ResentMeans(usable: set<nat>, pid: nat, packets: seq<VideoPacket>)
    ensures |Resent(usable, pid, packets)| == if pid in usable then |packets| else 0
    ensures forall i :: 0 <= i < |Resent(usable, pid, packets)| ==>
              Resent(usable, pid, packets)[i] == Call(pid, packets[i], true)
    decreases |packets|
  {
    if packets != [] {
      ResentMeans(usable, pid, packets[..|packets| - 1]);
    }
  }

  /** What is handed to paths by the first t calls of a schedule. */
  ghost function Handed(pend: map<nat, VideoPacket>, schedule: seq<Assignment>, t: nat): (calls: seq<Call>)
    requires t <= |schedule| && AllPending(pend, PacketIds(schedule))
  {
    if t == 0 then []
    else
      assert PacketIds(schedule)[t - 1] in pend;
      Handed(pend, schedule, t - 1) + [Call(schedule[t - 1].pid, pend[schedule[t - 1].packet], false)]
  }

  ghost predicate Labelled(buf: map<nat, VideoPacket>, limit: nat) {
    forall id :: id in buf ==> 0 < id < limit && buf[id].id == id && PayloadSize(buf[id]) <= MAX_BUF_SIZE
  }

  class Sender {
    var packetId: nat
    var fid: nat
    var firstTs: nat
    var pendBuf: map<nat, VideoPacket>
    var sentBuf: map<nat, VideoPacket>
    var usablePaths: set<nat>
    var runing: bool
    const schedule: ScheduleV1
    /** The calls made on the paths. */
    var calls: seq<Call>
    /** The latest time seen. */
    ghost var clock: nat

    ghost predicate BuffersOk()
      reads this
    {
      Buffered(pendBuf, sentBuf, packetId, clock)
    }

    ghost predicate ScheduleOk()
      reads this, schedule
    {
      schedule.Valid() && forall i :: 0 <= i < |schedule.pids| ==> schedule.pids[i] in usablePaths
    }

    constructor (schedule: ScheduleV1)
      requires schedule.Valid() && schedule.pids == []
      ensures BuffersOk() && ScheduleOk() && this.schedule == schedule
      ensures pendBuf == map[] && sentBuf == map[] && usablePaths == {} && runing && calls == []
      ensures packetId == fid == 1 && firstTs == clock == 0
    {
      packetId, fid, firstTs, pendBuf, sentBuf, usablePaths, runing, calls := 1, 1, 0, map[], map[], {}, true, [];
      this.schedule := schedule;
      clock := 0;
    }

    /** Cuts a frame into pending packets and tells the scheduler their lengths. */
    method OnVideoFrame(ftype: int, data: seq<Byte>, now: nat) returns (info: map<nat, nat>, size: nat)
      requires BuffersOk() && clock <= now
      requires |data| / SIM_VIDEO_SIZE < MAX_SPLIT_NUMBER && |Cut(data)| < 256
      modifies this`firstTs, this`pendBuf, this`packetId, this`fid, this`clock
      ensures BuffersOk() && clock == now
      ensures packetId == old(packetId) + |Cut(data)| && fid == old(fid) + 1
      ensures firstTs == if old(firstTs) == 0 then now else old(firstTs)
      ensures pendBuf == old(pendBuf) + NewPackets(old(fid), ftype, Cut(data), now, old(packetId), |Cut(data)|)
      ensures info == NewLengths(Cut(data), old(packetId), |Cut(data)|) && size == |data| == Sum(info)
    {
      if firstTs == 0 {
        firstTs := now;
      }
      var splits := new U16[MAX_SPLIT_NUMBER];
      var total := FrameSplit(splits, |data|);
      CutEntry(data, 0);
      FrameBuffersOk(pendBuf, sentBuf, packetId, clock, fid, ftype, Cut(data), now);
      info := QueueFrame(ftype, data, Cut(data), now, splits[..total]);
      fid := fid + 1;
      clock := now;
      size := |data|;
      LengthsAddUp(data, old(packetId));
    }

    method QueueFrame(ftype: int, data: seq<Byte>, ghost pieces: seq<seq<Byte>>, now: nat, sizes: seq<nat>)
        returns (info: map<nat, nat>)
      requires pieces == Cut(data) && sizes == SplitSizes(|data|) && |sizes| == |pieces|
      modifies this`pendBuf, this`packetId
      ensures packetId == old(packetId) + |sizes|
      ensures pendBuf == old(pendBuf) + NewPackets(fid, ftype, pieces, now, old(packetId), |sizes|)
      ensures info == NewLengths(pieces, old(packetId), |sizes|)
    {
      info := map[];
      var pos: nat, i: nat := 0, 0;
      while i < |sizes|
        invariant i <= |sizes| && packetId == old(packetId) + i
        invariant i < |sizes| ==> pos == i * SIM_VIDEO_SIZE
        invariant pendBuf == old(pendBuf) + NewPackets(fid, ftype, pieces, now, old(packetId), i)
        invariant info == NewLengths(pieces, old(packetId), i)
      {
        var len := sizes[i];
        PieceOffsets(data, i);
        var packet := VideoPacket(packetId, fid, i, |sizes|, ftype, now, data[pos..pos + len]);
        pendBuf := pendBuf[packetId := packet];
        info := info[packetId := len];
        packetId := packetId + 1;
        pos := pos + len;
        i := i + 1;
      }
    }

    /** The scheduler gives a pending packet to a path. */
    method PacketSchedule(id: nat, pid: nat)
      requires BuffersOk() && id in pendBuf
      modifies this`pendBuf, this`sentBuf, this`calls
      ensures BuffersOk()
      ensures pendBuf == if runing then old(pendBuf) - {id} else old(pendBuf)
      ensures sentBuf == if runing && pid in usablePaths then old(sentBuf)[id := old(pendBuf)[id]] else old(sentBuf)
      ensures calls == old(calls) + if runing && pid in usablePaths then [Call(pid, old(pendBuf)[id], false)] else []
    {
      if !runing {
        return;
      }
      var packet := pendBuf[id];
      MoveOk(pendBuf, sentBuf, packetId, clock, id);
      pendBuf := pendBuf - {id};
      if pid in usablePaths {
        calls := calls + [Call(pid, packet, false)];
        sentBuf := sentBuf[id := packet];
      }
    }

    /** All calls of one schedule that hands out what is pending, once each, to usable paths. */
    method RunSchedule(schedule: seq<Assignment>)
      requires BuffersOk() && runing
      requires InOrder(PacketIds(schedule), pendBuf.Keys)
      requires forall t :: 0 <= t < |schedule| ==> schedule[t].pid in usablePaths
      modifies this`pendBuf, this`sentBuf, this`calls
      ensures BuffersOk() && pendBuf == map[] && sentBuf == old(sentBuf) + old(pendBuf)
      ensures AllPending(old(pendBuf), PacketIds(schedule))
      ensures calls == old(calls) + Handed(old(pendBuf), schedule, |schedule|)
    {
      ghost var ids := PacketIds(schedule);
      AllMoved(sentBuf, pendBuf, ids);
      RunCalls(schedule);
      assert ids[..|schedule|] == ids;
    }

    method RunCalls(schedule: seq<Assignment>)
      requires BuffersOk() && runing
      requires Increasing(PacketIds(schedule)) && AllPending(pendBuf, PacketIds(schedule))
      requires forall t :: 0 <= t < |schedule| ==> schedule[t].pid in usablePaths
      modifies this`pendBuf, this`sentBuf, this`calls
      ensures Scheduled(schedule, old(pendBuf), old(sentBuf), old(calls), |schedule|)
    {
      ghost var pend, sent, before := pendBuf, sentBuf, calls;
      var t := 0;
      while t < |schedule|
        invariant t <= |schedule| && Scheduled(schedule, pend, sent, before, t)
      {
        ScheduleNext(schedule, t, pend, sent, before);
        t := t + 1;
      }
    }

    /** Where t calls of a schedule lead. */
    ghost predicate Scheduled(schedule: seq<Assignment>, pend: map<nat, VideoPacket>, sent: map<nat, VideoPacket>,
                              before: seq<Call>, t: nat)
      requires t <= |schedule| && AllPending(pend, PacketIds(schedule))
      reads this
    {
      && BuffersOk() && runing
      && AllPending(pend, PacketIds(schedule)[..t])
      && pendBuf == Less(pend, PacketIds(schedule)[..t])
      && sentBuf == More(sent, pend, PacketIds(schedule)[..t])
      && calls == before + Handed(pend, schedule, t)
    }

    method ScheduleNext(schedule: seq<Assignment>, t: nat, ghost pend: map<nat, VideoPacket>,
                        ghost sent: map<nat, VideoPacket>, ghost before: seq<Call>)
      requires t < |schedule| && schedule[t].pid in usablePaths
      requires Increasing(PacketIds(schedule)) && AllPending(pend, PacketIds(schedule))
      requires Scheduled(schedule, pend, sent, before, t)
      modifies this`pendBuf, this`sentBuf, this`calls
      ensures Scheduled(schedule, pend, sent, before, t + 1)
    {
      NextPending(pend, PacketIds(schedule), t);
      NextMoves(sent, pend, PacketIds(schedule), t);
      PacketSchedule(schedule[t].packet, schedule[t].pid);
    }

    /** Sends a packet again on a path, if it is still kept and the path is there. */
    method PacketRetrans(id: nat, pid: nat)
      modifies this`calls
      ensures calls == old(calls) + if id in sentBuf && pid in usablePaths then [Call(pid, sentBuf[id], true)] else []
    {
      if id in sentBuf {
        if pid in usablePaths {
          calls := calls + [Call(pid, sentBuf[id], true)];
        }
      }
    }

    /** What a path reports lost on one ack is sent again: for every lost sequence, in order, the
        packet it carried, if that is still kept, all on one path. With an eligible path
        registered that path is usable; a single registered path is only sent back to
        `origin`, usable or not; and with neither nothing is sent again, unless there is a path 0. */
    method OnPacketsLost(origin: nat, reported: seq<nat>, rtts: map<nat, nat>) returns (target: nat)
      requires ScheduleOk() && AllRated(schedule.pids, rtts)
      modifies this`calls
      ensures calls == old(calls) + Resent(usablePaths, target, Kept(sentBuf, reported))
      ensures |calls| == |old(calls)| + if target in usablePaths then |Kept(sentBuf, reported)| else 0
      ensures if |schedule.pids| == 1 then target == origin
              else if SomeEligible(schedule.pids, rtts, origin) then
                target in usablePaths && target in schedule.pids && Eligible(rtts, origin, target)
              else target == 0
      ensures |schedule.pids| != 1 ==>
                exists rtt :: BestSoFar(schedule.pids, rtts, origin, |schedule.pids|, target, rtt)
    {
      target := schedule.RetransTarget(origin, rtts);
      Resend(reported, target);
      ResentMeans(usablePaths, target, Kept(sentBuf, reported));
    }

    method Resend(reported: seq<nat>, target: nat)
      modifies this`calls
      ensures calls == old(calls) + Resent(usablePaths, target, Kept(sentBuf, reported))
    {
      var i := 0;
      while i < |reported|
        invariant i <= |reported|
        invariant calls == old(calls) + Resent(usablePaths, target, Kept(sentBuf, reported[..i]))
      {
        ResentNext(usablePaths, target, sentBuf, reported, i);
        PacketRetrans(reported[i], target);
        i := i + 1;
      }
      assert reported[..i] == reported;
    }

    /** An ack on one path: for every sequence whose loss it reveals, in order, the packet it
        carried is sent again on one path, if it was no padding and is still kept. */
    method AckOnPath(path: PathSender, origin: nat, n: nat, rtts: map<nat, nat>, now: nat) returns (target: nat)
      requires path.Valid()
      requires ScheduleOk() && AllRated(schedule.pids, rtts)
      modifies this`calls, path
      ensures path.Valid() && (old(path.Exact()) && n < path.seqNo ==> path.Exact())
      ensures path.lost == old(path.lost) + Between(old(path.recvSeq), n)
      ensures calls == old(calls)
                     + Resent(usablePaths, target,
                              Kept(sentBuf, PacketsOf(old(path.seqIdMap), Between(old(path.recvSeq), n))))
      ensures if |schedule.pids| == 1 then target == origin
              else if SomeEligible(schedule.pids, rtts, origin) then
                target in usablePaths && target in schedule.pids && Eligible(rtts, origin, target)
              else target == 0
    {
      var reported := path.OnAck(n, now);
      target := OnPacketsLost(origin, reported, rtts);
    }

    /** Drops from the front what has been kept too long. */
    method CheckStalePacket(now: nat)
      requires BuffersOk() && clock <= now
      modifies this`sentBuf, this`clock
      ensures BuffersOk() && clock == now
      ensures OnlyStaleRemoved(old(sentBuf), sentBuf, now)
      ensures sentBuf == Fresh(old(sentBuf), now) <==> StaleInFront(old(sentBuf), now)
      ensures Young(old(sentBuf), now) ==> sentBuf == Fresh(old(sentBuf), now)
    {
      if Young(sentBuf, now) {
        SentAged(pendBuf, sentBuf, packetId, clock, now);
        YoungStaleInFront(sentBuf, now);
      }
      sentBuf := DropStale(sentBuf, now);
      clock := now;
      LessSent(pendBuf, old(sentBuf), sentBuf, packetId, old(clock), now);
    }
  }

  lemma KeptNext(sent: map<nat, VideoPacket>, ids: seq<nat>, i: nat)
    requires i < |ids|
    ensures Kept(sent, ids[..i + 1])
         == if ids[i] in sent then Kept(sent, ids[..i]) + [sent[ids[i]]] else Kept(sent, ids[..i])
  {
    assert ids[..i + 1][..i] == ids[..i];
  }

  lemma ResentOne(usable: set<nat>, pid: nat, packets: seq<VideoPacket>, p: VideoPacket)
    ensures Resent(usable, pid, packets + [p])
         == Resent(usable, pid, packets) + if pid in usable then [Call(pid, p, true)] else []
  {
    assert (packets + [p])[..|packets|] == packets;
  }

  lemma ResentNext(usable: set<nat>, pid: nat, sent: map<nat, VideoPacket>, ids: seq<nat>, i: nat)
    requires i < |ids|
    ensures Resent(usable, pid, Kept(sent, ids[..i + 1]))
         == Resent(usable, pid, Kept(sent, ids[..i]))
            + if ids[i] in sent && pid in usable then [Call(pid, sent[ids[i]], true)] else []
  {
    KeptNext(sent, ids, i);
    if ids[i] in sent {
      ResentOne(usable, pid, Kept(sent, ids[..i]), sent[ids[i]]);
    }
  }

  lemma SentAged(pend: map<nat, VideoPacket>, sent: map<nat, VideoPacket>, limit: nat, clock: nat, now: nat)
    requires Buffered(pend, sent, limit, clock) && clock <= now
    ensures Aged(sent, now)
  {
    assert forall a :: a in sent ==> (pend + sent)[a] == sent[a];
  }

  lemma LessSent(pend: map<nat, VideoPacket>, sent: map<nat, VideoPacket>, fewer: map<nat, VideoPacket>,
                 limit: nat, clock: nat, now: nat)
    requires Buffered(pend, sent, limit, clock) && clock <= now
    requires forall id :: id in fewer ==> id in sent && fewer[id] == sent[id]
    ensures Buffered(pend, fewer, limit, now)
  {
    assert forall a :: a in pend + fewer ==> a in pend + sent && (pend + fewer)[a] == (pend + sent)[a];
  }

  lemma MoveOk(pend: map<nat, VideoPacket>, sent: map<nat, VideoPacket>, limit: nat, clock: nat, id: nat)
    requires Buffered(pend, sent, limit, clock) && id in pend
    ensures Buffered(pend - {id}, sent, limit, clock)
    ensures Buffered(pend - {id}, sent[id := pend[id]], limit, clock)
  {
    assert pend - {id} + sent[id := pend[id]] == pend + sent;
  }

  ghost predicate Buffered(pend: map<nat, VideoPacket>, sent: map<nat, VideoPacket>, limit: nat, clock: nat) {
    && limit > 0
    && Labelled(pend, limit) && Labelled(sent, limit)
    && pend.Keys !! sent.Keys
    && Aged(pend + sent, clock)
  }

  lemma NewLabelled(fid: nat, ftype: int, pieces: seq<seq<Byte>>, now: nat, first: nat, id: nat)
    requires id in NewPackets(fid, ftype, pieces, now, first, |pieces|)
    requires first > 0 && forall i :: 0 <= i < |pieces| ==> |pieces[i]| <= SIM_VIDEO_SIZE
    ensures first <= id < first + |pieces|
    ensures var p := NewPackets(fid, ftype, pieces, now, first, |pieces|)[id];
            p.id == id && PayloadSize(p) <= MAX_BUF_SIZE && p.generateTs == now
  {
    NewPacketsAt(fid, ftype, pieces, now, first, |pieces|, id);
  }

  ghost predicate NewlyMade(more: map<nat, VideoPacket>, first: nat, limit: nat, now: nat) {
    forall id :: id in more ==>
      first <= id < limit && more[id].id == id && PayloadSize(more[id]) <= MAX_BUF_SIZE && more[id].generateTs == now
  }

  lemma NewPacketsMade(fid: nat, ftype: int, pieces: seq<seq<Byte>>, now: nat, first: nat)
    requires first > 0 && forall i :: 0 <= i < |pieces| ==> |pieces[i]| <= SIM_VIDEO_SIZE
    ensures NewlyMade(NewPackets(fid, ftype, pieces, now, first, |pieces|), first, first + |pieces|, now)
  {
    var more := NewPackets(fid, ftype, pieces, now, first, |pieces|);
    forall id | id in more
      ensures first <= id < first + |pieces| && more[id].id == id && PayloadSize(more[id]) <= MAX_BUF_SIZE
           && more[id].generateTs == now {
      NewLabelled(fid, ftype, pieces, now, first, id);
    }
  }

  lemma MoreBuffered(pend: map<nat, VideoPacket>, sent: map<nat, VideoPacket>, more: map<nat, VideoPacket>,
                     limit: nat, next: nat, clock: nat, now: nat)
    requires Buffered(pend, sent, limit, clock) && clock <= now && limit <= next && NewlyMade(more, limit, next, now)
    ensures Buffered(pend + more, sent, next, now)
  {
    AgedGrows(pend + sent, more, limit, clock, now);
    assert pend + more + sent == pend + sent + more;
  }

  /** A new frame's packets have higher ids and are no older than all packets before. */
  lemma FrameBuffersOk(pend: map<nat, VideoPacket>, sent: map<nat, VideoPacket>, limit: nat, clock: nat,
                       fid: nat, ftype: int, pieces: seq<seq<Byte>>, now: nat)
    requires Buffered(pend, sent, limit, clock) && clock <= now
    requires forall i :: 0 <= i < |pieces| ==> |pieces[i]| <= SIM_VIDEO_SIZE
    ensures Buffered(pend + NewPackets(fid, ftype, pieces, now, limit, |pieces|), sent, limit + |pieces|, now)
  {
    NewPacketsMade(fid, ftype, pieces, now, limit);
    MoreBuffered(pend, sent, NewPackets(fid, ftype, pieces, now, limit, |pieces|), limit, limit + |pieces|, clock, now);
  }

  lemma AgedGrows(buf: map<nat, VideoPacket>, more: map<nat, VideoPacket>, limit: nat, clock: nat, now: nat)
    requires Aged(buf, clock) && clock <= now
    requires forall id :: id in buf ==> id < limit
    requires forall id :: id in more ==> limit <= id && more[id].generateTs == now
    ensures Aged(buf + more, now)
  {
  }
}
