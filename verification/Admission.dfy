/** Which of the segments that come in on a path its tables let through, and what that costs. */
module Admission {
  import opened Consumption
    import opened Fidelity
  import opened PathLayer
  import opened Receiving
  import opened SegmentCodec
  import opened Splitting
  import P = PathReceiver

  // ---- what a path's tables refuse ----

  /** A packet with this id was passed on by the path. */
  ghost predicate CameOn(h: seq<Event>, pid: nat, id: nat) {
    exists fid: nat :: CameInFor(h, (pid, id), fid)
  }

  /** A packet with this id or a higher one of the path was consumed. */
  ghost predicate ConsumedPast(consumed: seq<(nat, nat)>, pid: nat, id: nat) {
    exists c: nat :: c >= id && (pid, c) in consumed
  }

  lemma ExplainedParts(a: seq<P.Event>, b: seq<P.Event>, x: nat)
    ensures P.Explained(a + b, x) <==> P.Explained(a, x) || P.Explained(b, x)
  {
    if P.Explained(a, x) {
      var k :| 0 <= k < |a| && P.Explains(a[k], x);
      assert P.Explains((a + b)[k], x);
    }
    if P.Explained(b, x) {
      var k :| 0 <= k < |b| && P.Explains(b[k], x);
      assert P.Explains((a + b)[|a| + k], x);
    }
    if P.Explained(a + b, x) {
      var k :| 0 <= k < |a + b| && P.Explains((a + b)[k], x);
      if k < |a| {
        assert P.Explains(a[k], x);
      } else {
        assert P.Explains(b[k - |a|], x);
      }
    }
  }

  lemma ConsumedParts(a: seq<(nat, nat)>, b: seq<(nat, nat)>, pid: nat, id: nat)
    ensures ConsumedPast(a + b, pid, id) <==> ConsumedPast(a, pid, id) || ConsumedPast(b, pid, id)
  {
    if ConsumedPast(a, pid, id) {
      var c: nat :| c >= id && (pid, c) in a;
      assert (pid, c) in a + b;
    }
    if ConsumedPast(b, pid, id) {
      var c: nat :| c >= id && (pid, c) in b;
      assert (pid, c) in a + b;
    }
  }

  lemma OneExplains(e: P.Event, x: nat)
    ensures P.Explained([e], x) <==> P.Explains(e, x)
  {
    if P.Explains(e, x) {
      assert P.Explains([e][0], x);
    }
  }

  lemma {:induction false} ToldExplains(ids: seq<(nat, nat)>, pid: nat, x: nat)
    ensures P.Explained(Told(ids, pid), x) <==> ConsumedPast(ids, pid, x)
    decreases |ids|
  {
    if ids != [] {
      var front, last := ids[..|ids| - 1], ids[|ids| - 1];
      assert ids == front + [last];
      ToldExplains(front, pid, x);
      ConsumedParts(front, [last], pid, x);
      if last.0 == pid {
        ExplainedParts(Told(front, pid), [P.Consumed(last.1)], x);
        OneExplains(P.Consumed(last.1), x);
        assert last.1 >= x ==> (pid, last.1) in [last];
      } else {
        assert Told(ids, pid) == Told(front, pid);
      }
    }
  }

  lemma CameOnNext(h: seq<Event>, e: Event, pid: nat, id: nat)
    ensures CameOn(h + [e], pid, id) <==> CameOn(h, pid, id) || P.Explained(Noted(e, pid), id)
  {
    if CameOn(h, pid, id) {
      var fid: nat :| CameInFor(h, (pid, id), fid);
      CameInStill(h, e, (pid, id), fid);
    }
    if Noted(e, pid) != [] {
      OneExplains(Noted(e, pid)[0], id);
      if e.arrival.seg.packetId == id {
        assert BringsId((h + [e])[|h|], (pid, id), e.arrival.seg.fid);
        assert CameInFor(h + [e], (pid, id), e.arrival.seg.fid);
      }
    }
    if CameOn(h + [e], pid, id) {
      var fid: nat :| CameInFor(h + [e], (pid, id), fid);
      CameInLast(h, e, (pid, id), fid);
    }
  }

  /** What a path has seen since its start: what it passed on, and what was consumed. */
  lemma {:induction false} PathExplains(sources: Sources, traced: bool, h: seq<Event>, pid: nat, x: nat)
    requires AllGenuine(sources, h)
    ensures P.Explained(PathEvents(sources, traced, h, pid), x)
       <==> CameOn(h, pid, x) || ConsumedPast(Run(sources, true, traced, h).consumed, pid, x)
    decreases |h|
  {
    if h != [] {
      var front, last := h[..|h| - 1], h[|h| - 1];
      assert h == front + [last];
      PathExplains(sources, traced, front, pid, x);
      CameOnNext(front, last, pid, x);
      var before, more := PathEvents(sources, traced, front, pid), NewlyConsumed(sources, traced, h);
      EventTells(sources, traced, h);
      assert Run(sources, true, traced, h).consumed == Run(sources, true, traced, front).consumed + more;
      ConsumedParts(Run(sources, true, traced, front).consumed, more, pid, x);
      ToldExplains(more, pid, x);
      ExplainedParts(before, Noted(last, pid), x);
      ExplainedParts(before + Noted(last, pid), Told(more, pid), x);
    }
  }

  /** Where the path has started: everything up to there counts as seen. */
  ghost function StartOn(sources: Sources, traced: bool, h: seq<Event>, pid: nat): nat
    requires AllGenuine(sources, h)
  {
    P.StartOf(PathEvents(sources, traced, h, pid))
  }

  /** A path has seen what lies up to its start, what it passed on, and what was consumed. */
  lemma SeenIff(sources: Sources, traced: bool, h: seq<Event>, pid: nat, x: nat)
    requires AllGenuine(sources, h)
    ensures x in SeenOn(sources, traced, h, pid).seen
       <==> || x <= StartOn(sources, traced, h, pid)
            || CameOn(h, pid, x) || ConsumedPast(Run(sources, true, traced, h).consumed, pid, x)
  {
    PathStaysSound(sources, traced, h, pid);
    P.RunFromNothing(PathEvents(sources, traced, h, pid));
    PathExplains(sources, traced, h, pid, x);
  }

  /** An id before the start, or the start itself when the next id has been seen. */
  predicate Before(seen: set<nat>, start: nat, id: nat) {
    id < start || (id == start && start + 1 in seen)
  }

  /** The start of the path cuts the segment off. */
  ghost predicate CutOff(sources: Sources, traced: bool, h: seq<Event>, a: Arrival)
    requires AllGenuine(sources, h)
  {
    Before(SeenOn(sources, traced, h, a.pid).seen, StartOn(sources, traced, h, a.pid), a.seg.packetId)
  }

  lemma PassesIff(seen: set<nat>, start: nat, id: nat, past: bool)
    requires P.AllUpTo(seen, start) && (past ==> id in seen && id + 1 in seen)
    requires id in seen ==> id <= start || past
    ensures P.Passes(seen, id) <==> !Before(seen, start, id) && !past
  {
  }

  lemma BeforeFails(seen: set<nat>, start: nat, id: nat)
    requires P.AllUpTo(seen, start) && Before(seen, start, id)
    ensures !P.Passes(seen, id)
  {
  }

  /** What was consumed on a path had been passed on by it. */
  lemma ConsumedCame(sources: Sources, traced: bool, h: seq<Event>, pid: nat, c: nat)
    requires AllGenuine(sources, h) && (pid, c) in Run(sources, true, traced, h).consumed
    ensures CameOn(h, pid, c)
  {
    RunConsumes(sources, traced, h);
    var fid: nat :| fid <= Run(sources, true, traced, h).minFid && CameInFor(h, (pid, c), fid);
  }

  /** A segment that is not a repetition is refused exactly if the start of the path cuts it off, or if a later one of
      the path was consumed; a repetition, unless it repeats the base. Refusing it leaves the path as it was. */
  lemma RefusedIff(sources: Sources, traced: bool, h: seq<Event>, a: Arrival)
    requires AllGenuine(sources, h)
    ensures !CameOn(h, a.pid, a.seg.packetId) ==>
              (!Taken(sources, traced, h, a)
               <==> || CutOff(sources, traced, h, a)
                    || ConsumedPast(Run(sources, true, traced, h).consumed, a.pid, a.seg.packetId))
    ensures CameOn(h, a.pid, a.seg.packetId) ==>
              (!Taken(sources, traced, h, a)
               <==> !P.IsBase(SeenOn(sources, traced, h, a.pid).seen, a.seg.packetId))
    ensures CutOff(sources, traced, h, a) ==> !Taken(sources, traced, h, a)
    ensures !Taken(sources, traced, h, a) ==>
              var seen := SeenOn(sources, traced, h, a.pid);
              P.Step(seen, P.Arrival(a.seg.packetId, a.seg.index)) == seen
  {
    var pid, id := a.pid, a.seg.packetId;
    var seen, start := SeenOn(sources, traced, h, pid).seen, StartOn(sources, traced, h, pid);
    var past := ConsumedPast(Run(sources, true, traced, h).consumed, pid, id);
    SeenToStart(sources, traced, h, pid);
    SeenIff(sources, traced, h, pid, id);
    if Before(seen, start, id) {
      BeforeFails(seen, start, id);
    }
    if !CameOn(h, pid, id) {
      if past {
        PastSeen(sources, traced, h, pid, id);
      }
      PassesIff(seen, start, id, past);
    }
  }

  lemma PastSeen(sources: Sources, traced: bool, h: seq<Event>, pid: nat, id: nat)
    requires AllGenuine(sources, h) && !CameOn(h, pid, id)
    requires ConsumedPast(Run(sources, true, traced, h).consumed, pid, id)
    ensures id in SeenOn(sources, traced, h, pid).seen && id + 1 in SeenOn(sources, traced, h, pid).seen
  {
    var consumed := Run(sources, true, traced, h).consumed;
    var c: nat :| c >= id && (pid, c) in consumed;
    ConsumedCame(sources, traced, h, pid, c);
    assert c >= id + 1 && ConsumedPast(consumed, pid, id + 1);
    SeenIff(sources, traced, h, pid, id);
    SeenIff(sources, traced, h, pid, id + 1);
  }

  lemma SeenToStart(sources: Sources, traced: bool, h: seq<Event>, pid: nat)
    requires AllGenuine(sources, h)
    ensures P.AllUpTo(SeenOn(sources, traced, h, pid).seen, StartOn(sources, traced, h, pid))
  {
    forall x: nat | x <= StartOn(sources, traced, h, pid) ensures x in SeenOn(sources, traced, h, pid).seen {
      SeenIff(sources, traced, h, pid, x);
    }
  }

  // ---- path ids that rise with the frames ----

  /** On one path equal ids mean the same piece, and higher ids never an earlier frame. */
  predicate IdsRise(x: Segment, y: Segment) {
    && (x.packetId == y.packetId ==> x.fid == y.fid && x.index == y.index)
    && (x.packetId <= y.packetId ==> x.fid <= y.fid)
  }

  predicate InStep(s: Event, t: Event) {
    s.Arrive? && t.Arrive? && s.arrival.pid == t.arrival.pid ==> IdsRise(s.arrival.seg, t.arrival.seg)
  }

  ghost predicate Numbered(ts: seq<Event>) {
    forall a, b :: 0 <= a < |ts| && 0 <= b < |ts| ==> InStep(ts[a], ts[b])
  }

  ghost predicate FollowsOn(ts: seq<Event>, a: Arrival) {
    forall k :: 0 <= k < |ts| ==> InStep(ts[k], Arrive(a)) && InStep(Arrive(a), ts[k])
  }

  lemma NumberedParts(ts: seq<Event>)
    requires Numbered(ts) && ts != []
    ensures Numbered(ts[..|ts| - 1])
    ensures ts[|ts| - 1].Arrive? ==> FollowsOn(ts[..|ts| - 1], ts[|ts| - 1].arrival)
  {
  }

  /** All that a path passed on came in on it. */
  lemma {:induction false} HeardCame(sources: Sources, traced: bool, ts: seq<Event>, e: Event) returns (k: nat)
    requires AllGenuine(sources, ts) && e in Heard(sources, traced, ts) && e.Arrive?
    ensures k < |ts| && ts[k].Arrive? && ts[k].arrival.pid == e.arrival.pid && ts[k].arrival.seg == e.arrival.seg
    decreases |ts|
  {
    var front, last := ts[..|ts| - 1], ts[|ts| - 1];
    if e in Heard(sources, traced, front) {
      k := HeardCame(sources, traced, front, e);
    } else {
      k := |ts| - 1;
    }
  }

  lemma CameFrom(sources: Sources, traced: bool, ts: seq<Event>, pid: nat, id: nat, fid: nat)
      returns (k: nat, n: nat)
    requires AllGenuine(sources, ts)
    requires CameInFor(Heard(sources, traced, ts), (pid, id), fid)
    ensures k < |ts| && ts[k].Arrive? && ts[k].arrival.pid == pid
    ensures ts[k].arrival.seg.packetId == id && ts[k].arrival.seg.fid == fid
    ensures n < |Heard(sources, traced, ts)|
    ensures ArrivalFor(Heard(sources, traced, ts)[n], fid, ts[k].arrival.seg.index).Full?
  {
    var h := Heard(sources, traced, ts);
    n :| 0 <= n < |h| && BringsId(h[n], (pid, id), fid);
    k := HeardCame(sources, traced, ts, h[n]);
  }

  /** A segment whose id came before has the piece it brings with the frame layer. */
  lemma RepeatedIsThere(sources: Sources, traced: bool, ts: seq<Event>, a: Arrival)
    requires AllGenuine(sources, ts) && FollowsOn(ts, a)
    requires CameOn(Heard(sources, traced, ts), a.pid, a.seg.packetId)
    ensures PieceArrived(Heard(sources, traced, ts), a.seg.fid, a.seg.index)
  {
    var fid: nat :| CameInFor(Heard(sources, traced, ts), (a.pid, a.seg.packetId), fid);
    var k, n := CameFrom(sources, traced, ts, a.pid, a.seg.packetId, fid);
  }

  /** A segment that is behind a consumed one of its path belongs to a frame that is not above the late mark. */
  lemma PastIsLate(sources: Sources, traced: bool, ts: seq<Event>, a: Arrival)
    requires AllGenuine(sources, ts) && FollowsOn(ts, a)
    requires ConsumedPast(After(sources, traced, ts).consumed, a.pid, a.seg.packetId)
    ensures a.seg.fid <= After(sources, traced, ts).minFid
  {
    var c: nat :| c >= a.seg.packetId && (a.pid, c) in After(sources, traced, ts).consumed;
    var fid := ConsumedIsLate(sources, traced, ts, a.pid, c);
    var k, n := CameFrom(sources, traced, ts, a.pid, c, fid);
  }

  lemma ConsumedIsLate(sources: Sources, traced: bool, ts: seq<Event>, pid: nat, c: nat) returns (fid: nat)
    requires AllGenuine(sources, ts) && (pid, c) in After(sources, traced, ts).consumed
    ensures fid <= After(sources, traced, ts).minFid && CameInFor(Heard(sources, traced, ts), (pid, c), fid)
  {
    RunConsumes(sources, traced, Heard(sources, traced, ts));
    fid :| fid <= After(sources, traced, ts).minFid && CameInFor(Heard(sources, traced, ts), (pid, c), fid);
  }

  /** The next segment gets its piece to the frame layer, unless its frame is late or the start cuts it off. */
  lemma TakenUnless(sources: Sources, traced: bool, ts: seq<Event>, a: Arrival)
    requires AllGenuine(sources, ts) && FollowsOn(ts, a)
    requires a.seg.fid > After(sources, traced, ts).minFid
    requires !CutOff(sources, traced, Heard(sources, traced, ts), a)
    ensures || PieceArrived(Heard(sources, traced, ts), a.seg.fid, a.seg.index)
            || Taken(sources, traced, Heard(sources, traced, ts), a)
  {
    var h := Heard(sources, traced, ts);
    if CameOn(h, a.pid, a.seg.packetId) {
      RepeatedIsThere(sources, traced, ts, a);
    } else {
      if ConsumedPast(After(sources, traced, ts).consumed, a.pid, a.seg.packetId) {
        PastIsLate(sources, traced, ts, a);
      }
      RefusedIff(sources, traced, h, a);
    }
  }

  // ---- what the start of a path costs ----

  /** Some datagram brought piece i of a frame undamaged, and the start of its path did not cut it off. */
  ghost predicate PieceReached(sources: Sources, traced: bool, ts: seq<Event>, fid: nat, i: nat)
    requires AllGenuine(sources, ts)
    decreases |ts|
  {
    ts != []
    && var front, last := ts[..|ts| - 1], ts[|ts| - 1];
       || PieceReached(sources, traced, front, fid, i)
       || (Brings(last, fid, i) && !CutOff(sources, traced, Heard(sources, traced, front), last.arrival))
  }

  ghost predicate AllReached(sources: Sources, traced: bool, ts: seq<Event>, fid: nat)
    requires AllGenuine(sources, ts) && fid in sources
  {
    forall i :: 0 <= i < |Cut(sources[fid].data)| ==> PieceReached(sources, traced, ts, fid, i)
  }

  lemma {:induction false} TakenIsReached(sources: Sources, traced: bool, ts: seq<Event>, fid: nat, i: nat)
    requires AllGenuine(sources, ts) && PieceTaken(sources, traced, ts, fid, i)
    ensures PieceReached(sources, traced, ts, fid, i)
    decreases |ts|
  {
    var front, last := ts[..|ts| - 1], ts[|ts| - 1];
    if PieceTaken(sources, traced, front, fid, i) {
      TakenIsReached(sources, traced, front, fid, i);
    } else {
      RefusedIff(sources, traced, Heard(sources, traced, front), last.arrival);
    }
  }

  lemma NumberedFront(ts: seq<Event>, m: nat)
    requires Numbered(ts) && m <= |ts|
    ensures Numbered(ts[..m])
  {
  }

  lemma TakesNow(sources: Sources, traced: bool, ts: seq<Event>, fid: nat, i: nat)
    requires AllGenuine(sources, ts) && Numbered(ts) && ts != []
    requires Brings(ts[|ts| - 1], fid, i)
    requires !CutOff(sources, traced, Heard(sources, traced, ts[..|ts| - 1]), ts[|ts| - 1].arrival)
    requires fid > After(sources, traced, ts[..|ts| - 1]).minFid
    ensures PieceTaken(sources, traced, ts, fid, i)
  {
    var front, last := ts[..|ts| - 1], ts[|ts| - 1];
    NumberedParts(ts);
    TakenUnless(sources, traced, front, last.arrival);
    TakenIff(sources, traced, front, fid, i);
  }

  lemma StillNotLate(sources: Sources, traced: bool, ts: seq<Event>, fid: nat)
    requires AllGenuine(sources, ts) && ts != [] && fid > After(sources, traced, ts).minFid
    ensures fid > After(sources, traced, ts[..|ts| - 1]).minFid
  {
    LogGrows(sources, traced, ts);
  }

  /** What reaches a frame while it is not late is taken. */
  lemma {:induction false} ReachedIsTaken(sources: Sources, traced: bool, ts: seq<Event>, fid: nat, i: nat)
    requires AllGenuine(sources, ts) && Numbered(ts) && PieceReached(sources, traced, ts, fid, i)
    requires fid > After(sources, traced, ts[..|ts| - 1]).minFid
    ensures PieceTaken(sources, traced, ts, fid, i)
    decreases |ts|
  {
    var front := ts[..|ts| - 1];
    if PieceReached(sources, traced, front, fid, i) {
      NumberedParts(ts);
      StillNotLate(sources, traced, front, fid);
      ReachedIsTaken(sources, traced, front, fid, i);
    } else {
      TakesNow(sources, traced, ts, fid, i);
    }
  }

  lemma AllReachedIff(sources: Sources, traced: bool, ts: seq<Event>, fid: nat)
    requires AllGenuine(sources, ts) && Numbered(ts) && ts != [] && fid in sources
    requires fid > After(sources, traced, ts[..|ts| - 1]).minFid
    ensures AllReached(sources, traced, ts, fid) <==> AllTaken(sources, traced, ts, fid)
  {
    forall i | 0 <= i < |Cut(sources[fid].data)|
      ensures PieceReached(sources, traced, ts, fid, i) <==> PieceTaken(sources, traced, ts, fid, i)
    {
      if PieceReached(sources, traced, ts, fid, i) {
        ReachedIsTaken(sources, traced, ts, fid, i);
      }
      if PieceTaken(sources, traced, ts, fid, i) {
        TakenIsReached(sources, traced, ts, fid, i);
      }
    }
  }

  /** A frame is above the late mark until it is handed over. */
  lemma HandedInTime(sources: Sources, traced: bool, ts: seq<Event>, j: nat, m: nat)
    requires AllGenuine(sources, ts) && j < |Log(sources, traced, ts)|
    requires HandedBy(sources, traced, ts, j, m)
    ensures ts[..m][..m - 1] == ts[..m - 1]
    ensures Log(sources, traced, ts)[j].fid > After(sources, traced, ts[..m - 1]).minFid
  {
    var now := ts[..m];
    assert now[..|now| - 1] == ts[..m - 1];
    LogGrows(sources, traced, now);
  }

  /** When the ids of every path rise with the frames, nothing but the starts of the paths costs a frame that is not
      late: it is delivered complete, and is the frame that was sent, exactly if every piece came in undamaged before
      and was not cut off there. */
  lemma OnlyStartsCost(sources: Sources, traced: bool, ts: seq<Event>, j: nat)
    requires AllGenuine(sources, ts) && Numbered(ts) && j < |Log(sources, traced, ts)|
    ensures var d, m := Log(sources, traced, ts)[j], HandedAfter(sources, traced, ts, j);
            && HandedBy(sources, traced, ts, j, m) && d.fid in sources
            && (d.recv == d.total <==> AllReached(sources, traced, ts[..m], d.fid))
            && (AllReached(sources, traced, ts[..m], d.fid) ==> d.data == sources[d.fid].data)
  {
    var d, m := Log(sources, traced, ts)[j], HandedAfter(sources, traced, ts, j);
    TakenIsDelivered(sources, traced, ts, j);
    HandedInTime(sources, traced, ts, j, m);
    NumberedFront(ts, m);
    AllReachedIff(sources, traced, ts[..m], d.fid);
  }
}
