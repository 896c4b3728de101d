/** Paths on which the first packet to come in is the first that was sent: their starts cost nothing. */
module Startup {
  import opened Admission
  import opened Consumption
  import opened Fidelity
  import opened PathLayer
  import opened Receiving
  import opened Sequences
  import opened Splitting
  import P = PathReceiver

  predicate BringsOn(e: Event, pid: nat) {
    e.Arrive? && e.arrival.pid == pid
  }

  ghost predicate SomeBefore(ts: seq<Event>, pid: nat) {
    Some(ts, (e: Event) => BringsOn(e, pid))
  }

  /** Ids are positive, and the first to come in on a path is at most one above the place of its segment in the frame,
      as id 1 is. */
  ghost predicate StartsInOrder(ts: seq<Event>)
    decreases |ts|
  {
    ts != [] ==>
      && var front, last := ts[..|ts| - 1], ts[|ts| - 1];
         && StartsInOrder(front)
         && (last.Arrive? ==>
               && last.arrival.seg.packetId > 0
               && (SomeBefore(front, last.arrival.pid) || last.arrival.seg.packetId <= last.arrival.seg.index + 1))
  }

  /** A segment with a positive id came. */
  ghost predicate Started(events: seq<P.Event>) {
    exists k :: 0 <= k < |events| && events[k].Arrival? && events[k].id > 0
  }

  lemma {:induction false} StartOfParts(a: seq<P.Event>, b: seq<P.Event>)
    ensures P.StartOf(a + b) == if Started(a) then P.StartOf(a) else P.StartOf(b)
    ensures Started(a + b) <==> Started(a) || Started(b)
    decreases |a|
  {
    if a == [] {
      assert a + b == b;
    } else {
      StartOfParts(a[1..], b);
      assert (a + b)[1..] == a[1..] + b;
      StartedFirst(a);
      StartedFirst(a + b);
    }
  }

  lemma StartedFirst(events: seq<P.Event>)
    requires events != []
    ensures Started(events) <==> (events[0].Arrival? && events[0].id > 0) || Started(events[1..])
  {
    if Started(events[1..]) {
      var k :| 0 <= k < |events[1..]| && events[1..][k].Arrival? && events[1..][k].id > 0;
      assert events[k + 1].Arrival?;
    }
    if Started(events) {
      var k :| 0 <= k < |events| && events[k].Arrival? && events[k].id > 0;
      if k > 0 {
        assert events[1..][k - 1].Arrival?;
      }
    }
  }

  lemma {:induction false} ToldStartsNothing(ids: seq<(nat, nat)>, pid: nat)
    ensures !Started(Told(ids, pid)) && P.StartOf(Told(ids, pid)) == 0
    decreases |ids|
  {
    if ids != [] {
      ToldStartsNothing(ids[..|ids| - 1], pid);
      StartOfParts(Told(ids[..|ids| - 1], pid), if ids[|ids| - 1].0 == pid then [P.Consumed(ids[|ids| - 1].1)] else []);
    }
  }

  /** Whether and where the path is started after the next event. */
  lemma StartNext(sources: Sources, traced: bool, h: seq<Event>, e: Event, pid: nat)
    requires AllGenuine(sources, h + [e]) && AllGenuine(sources, h)
    ensures var before, events := PathEvents(sources, traced, h, pid), PathEvents(sources, traced, h + [e], pid);
            && P.StartOf(events) == (if Started(before) then P.StartOf(before) else P.StartOf(Noted(e, pid)))
            && (Started(events) <==> Started(before) || Started(Noted(e, pid)))
  {
    assert (h + [e])[..|h|] == h;
    var before, told := PathEvents(sources, traced, h, pid), Told(NewlyConsumed(sources, traced, h + [e]), pid);
    ToldStartsNothing(NewlyConsumed(sources, traced, h + [e]), pid);
    StartOfParts(before, Noted(e, pid));
    StartOfParts(before + Noted(e, pid), told);
  }

  /** A path takes the first segment that comes in on it. */
  lemma FirstIsTaken(sources: Sources, traced: bool, ts: seq<Event>, a: Arrival)
    requires AllGenuine(sources, ts)
    requires a.seg.packetId > 0 && !SomeBefore(ts, a.pid)
    requires StartOn(sources, traced, Heard(sources, traced, ts), a.pid) == 0
    ensures Taken(sources, traced, Heard(sources, traced, ts), a)
  {
    var h, id := Heard(sources, traced, ts), a.seg.packetId;
    if CameOn(h, a.pid, id) {
      var fid: nat :| CameInFor(h, (a.pid, id), fid);
      var k, n := CameFrom(sources, traced, ts, a.pid, id, fid);
      assert BringsOn(ts[k], a.pid);
    }
    if ConsumedPast(After(sources, traced, ts).consumed, a.pid, id) {
      var c: nat :| c >= id && (a.pid, c) in After(sources, traced, ts).consumed;
      var fid := ConsumedIsLate(sources, traced, ts, a.pid, c);
      var k, n := CameFrom(sources, traced, ts, a.pid, c, fid);
      assert BringsOn(ts[k], a.pid);
    }
    RefusedIff(sources, traced, h, a);
  }

  /** A path has started at 0, and once a segment has come in on it. */
  ghost predicate AtZero(sources: Sources, traced: bool, h: seq<Event>, pid: nat, some: bool)
    requires AllGenuine(sources, h)
  {
    StartOn(sources, traced, h, pid) == 0 && (some ==> Started(PathEvents(sources, traced, h, pid)))
  }

  lemma AtZeroNext(sources: Sources, traced: bool, h: seq<Event>, e: Event, pid: nat, some: bool)
    requires AllGenuine(sources, h + [e]) && AllGenuine(sources, h) && AtZero(sources, traced, h, pid, some)
    requires BringsOn(e, pid) ==>
               e.arrival.seg.packetId > 0 && (!some ==> e.arrival.seg.packetId <= e.arrival.seg.index + 1)
    ensures AtZero(sources, traced, h + [e], pid, some || BringsOn(e, pid))
  {
    StartNext(sources, traced, h, e, pid);
    if BringsOn(e, pid) {
      assert Noted(e, pid)[0].Arrival? && Noted(e, pid)[0].id > 0;
    }
  }

  lemma NextAtZero(sources: Sources, traced: bool, front: seq<Event>, last: Event, pid: nat, some: bool)
    requires AllGenuine(sources, front) && AllGenuine(sources, [last])
    requires some == SomeBefore(front, pid) && AtZero(sources, traced, Heard(sources, traced, front), pid, some)
    requires BringsOn(last, pid) ==>
               last.arrival.seg.packetId > 0 && (!some ==> last.arrival.seg.packetId <= last.arrival.seg.index + 1)
    ensures var h := Heard(sources, traced, front) + PassedOn(sources, traced, Heard(sources, traced, front), last);
            AllGenuine(sources, h) && AtZero(sources, traced, h, pid, some || BringsOn(last, pid))
  {
    var h := Heard(sources, traced, front);
    if BringsOn(last, pid) && !some {
      FirstIsTaken(sources, traced, front, last.arrival);
    }
    if PassedOn(sources, traced, h, last) == [] {
      assert h + [] == h;
    } else {
      AtZeroNext(sources, traced, h, last, pid, some);
    }
  }

  lemma SomeBeforeNext(ts: seq<Event>, pid: nat)
    requires ts != []
    ensures SomeBefore(ts, pid) == (SomeBefore(ts[..|ts| - 1], pid) || BringsOn(ts[|ts| - 1], pid))
  {
    SomeNext(ts, (e: Event) => BringsOn(e, pid));
  }

  lemma {:induction false} StartsAtZero(sources: Sources, traced: bool, ts: seq<Event>, pid: nat)
    requires AllGenuine(sources, ts) && StartsInOrder(ts)
    ensures AtZero(sources, traced, Heard(sources, traced, ts), pid, SomeBefore(ts, pid))
    decreases |ts|
  {
    if ts == [] {
      assert !SomeBefore(ts, pid);
    } else {
      StartsAtZero(sources, traced, ts[..|ts| - 1], pid);
      SomeBeforeNext(ts, pid);
      NextAtZero(sources, traced, ts[..|ts| - 1], ts[|ts| - 1], pid, SomeBefore(ts[..|ts| - 1], pid));
    }
  }

  /** Piece i of a frame has come in on some path. */
  ghost predicate PieceCame(ts: seq<Event>, fid: nat, i: nat) {
    Some(ts, (e: Event) => Brings(e, fid, i))
  }

  /** Every piece of the frame has come in. */
  ghost predicate AllCame(sources: Sources, ts: seq<Event>, fid: nat)
    requires fid in sources
  {
    forall i :: 0 <= i < |Cut(sources[fid].data)| ==> PieceCame(ts, fid, i)
  }

  lemma {:induction false} CameIsReached(sources: Sources, traced: bool, ts: seq<Event>, fid: nat, i: nat)
    requires AllGenuine(sources, ts) && StartsInOrder(ts)
    ensures PieceCame(ts, fid, i) <==> PieceReached(sources, traced, ts, fid, i)
    decreases |ts|
  {
    if ts != [] {
      var front, last := ts[..|ts| - 1], ts[|ts| - 1];
      CameIsReached(sources, traced, front, fid, i);
      SomeNext(ts, (e: Event) => Brings(e, fid, i));
      if Brings(last, fid, i) {
        StartsAtZero(sources, traced, front, last.arrival.pid);
      }
    }
  }

  lemma {:induction false} InOrderFront(ts: seq<Event>, m: nat)
    requires StartsInOrder(ts) && m <= |ts|
    ensures StartsInOrder(ts[..m])
    decreases |ts|
  {
    if m < |ts| {
      InOrderFront(ts[..|ts| - 1], m);
      assert ts[..|ts| - 1][..m] == ts[..m];
    } else {
      assert ts[..m] == ts;
    }
  }

  /** When the paths start in order and their ids rise with the frames, a frame is delivered complete, and is the frame
      that was sent, exactly if every piece has come in by then. */
  lemma InOrderStartsCostNothing(sources: Sources, traced: bool, ts: seq<Event>, j: nat)
    requires AllGenuine(sources, ts) && Numbered(ts) && StartsInOrder(ts)
    requires j < |Log(sources, traced, ts)|
    ensures var d, m := Log(sources, traced, ts)[j], HandedAfter(sources, traced, ts, j);
            && HandedBy(sources, traced, ts, j, m) && d.fid in sources
            && (d.recv == d.total <==> AllCame(sources, ts[..m], d.fid))
            && (AllCame(sources, ts[..m], d.fid) ==> d.data == sources[d.fid].data)
  {
    var d, m := Log(sources, traced, ts)[j], HandedAfter(sources, traced, ts, j);
    OnlyStartsCost(sources, traced, ts, j);
    InOrderFront(ts, m);
    forall i | 0 <= i < |Cut(sources[d.fid].data)|
      ensures PieceCame(ts[..m], d.fid, i) <==> PieceReached(sources, traced, ts[..m], d.fid, i)
    {
      CameIsReached(sources, traced, ts[..m], d.fid, i);
    }
  }
}
