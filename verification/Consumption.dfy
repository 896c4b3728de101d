/** What the frame layer tells the paths, against what each path's tables allow. */
module Consumption {
  import opened Fidelity
  import opened Receiving
  import P = PathReceiver

  /** What a path notes of an event: a segment that came in on it. */
  function Noted(e: Event, pid: nat): (events: seq<P.Event>) {
    if e.Arrive? && e.arrival.pid == pid then [P.Arrival(e.arrival.seg.packetId, e.arrival.seg.index)] else []
  }

  /** What a path is told of a list of ids to consume. */
  function Told(ids: seq<(nat, nat)>, pid: nat): (events: seq<P.Event>) {
    if ids == [] then []
    else Told(ids[..|ids| - 1], pid) + if ids[|ids| - 1].0 == pid then [P.Consumed(ids[|ids| - 1].1)] else []
  }

  lemma {:induction false} DrainTells(st: State, now: nat)
    ensures st.consumed <= Drain(st, now).consumed
    decreases |st.cache|
  {
    if HeadReady(st, now) {
      HeadShrinks(st);
      DrainTells(TakeHead(st), now);
    }
  }

  lemma EventTells(sources: Sources, traced: bool, h: seq<Event>)
    requires AllGenuine(sources, h) && h != []
    ensures Run(sources, true, traced, h[..|h| - 1]).consumed <= Run(sources, true, traced, h).consumed
  {
    var st := Run(sources, true, traced, h[..|h| - 1]);
    match h[|h| - 1]
    case Arrive(a) =>
      TakeHeld(sources, st, a);
      if !Unwanted(st, a.seg) {
        DrainTells(Store(st, a), a.now);
      }
    case Tick(now) => DrainTells(st, now);
  }

  /** The ids that the last event makes the frame layer consume. */
  ghost function NewlyConsumed(sources: Sources, traced: bool, h: seq<Event>): seq<(nat, nat)>
    requires AllGenuine(sources, h) && h != []
  {
    EventTells(sources, traced, h);
    Run(sources, true, traced, h).consumed[|Run(sources, true, traced, h[..|h| - 1]).consumed|..]
  }

  /** All that changes one path: a segment that passes its tables is noted first and then handed on, and what that
      leads to is consumed at once. A segment that does not pass is noted by nobody. */
  ghost function PathEvents(sources: Sources, traced: bool, h: seq<Event>, pid: nat): seq<P.Event>
    requires AllGenuine(sources, h)
    decreases |h|
  {
    if h == [] then []
    else
      PathEvents(sources, traced, h[..|h| - 1], pid) + Noted(h[|h| - 1], pid)
      + Told(NewlyConsumed(sources, traced, h), pid)
  }

  // ---- runs of a path in two parts ----

  lemma {:induction false} RunParts(h: P.History, a: seq<P.Event>, b: seq<P.Event>)
    ensures P.Run(h, a + b) == P.Run(P.Run(h, a), b)
    ensures P.Sound(h, a + b) <==> P.Sound(h, a) && P.Sound(P.Run(h, a), b)
    decreases |a|
  {
    if a == [] {
      assert a + b == b;
    } else {
      RunParts(P.Step(h, a[0]), a[1..], b);
      assert (a + b)[1..] == a[1..] + b;
    }
  }

  lemma OneEvent(h: P.History, e: P.Event)
    requires h.Valid() && (e.Consumed? ==> e.id <= h.max)
    ensures P.Run(h, [e]) == P.Step(h, e) && P.Sound(h, [e])
    ensures P.Step(h, e).max >= h.max && (e.Arrival? ==> P.Step(h, e).max >= e.id)
    ensures P.Step(h, e).Valid()
  {
    assert [e][1..] == [];
    assert P.Run(P.Step(h, e), []) == P.Step(h, e);
  }

  /** The ids are at most `max` on this path. */
  ghost predicate NotAbove(ids: seq<(nat, nat)>, pid: nat, max: nat) {
    forall id :: id in ids && id.0 == pid ==> id.1 <= max
  }

  lemma {:induction false} TellingIsSound(h: P.History, ids: seq<(nat, nat)>, pid: nat)
    requires h.Valid() && NotAbove(ids, pid, h.max)
    ensures P.Sound(h, Told(ids, pid))
    ensures P.Run(h, Told(ids, pid)).Valid() && P.Run(h, Told(ids, pid)).max == h.max
    decreases |ids|
  {
    if ids != [] {
      var front, last := ids[..|ids| - 1], ids[|ids| - 1];
      TellingIsSound(h, front, pid);
      if last.0 == pid {
        RunParts(h, Told(front, pid), [P.Consumed(last.1)]);
        OneEvent(P.Run(h, Told(front, pid)), P.Consumed(last.1));
      } else {
        assert Told(front, pid) + [] == Told(front, pid);
      }
    }
  }

  // ---- whole runs ----

  /** All that came in on the path is at most the highest id it has seen. */
  ghost predicate AllNoted(h: seq<Event>, pid: nat, max: nat) {
    forall id: nat, fid: nat :: CameInFor(h, (pid, id), fid) ==> id <= max
  }

  ghost predicate SoundSoFar(h: seq<Event>, events: seq<P.Event>, pid: nat) {
    && P.Sound(P.NOTHING_SEEN, events)
    && P.Run(P.NOTHING_SEEN, events).Valid()
    && AllNoted(h, pid, P.Run(P.NOTHING_SEEN, events).max)
  }

  lemma CameInLast(h: seq<Event>, e: Event, id: (nat, nat), fid: nat)
    requires CameInFor(h + [e], id, fid)
    ensures CameInFor(h, id, fid) || BringsId(e, id, fid)
  {
    var k :| 0 <= k < |h + [e]| && BringsId((h + [e])[k], id, fid);
    if k < |h| {
      assert BringsId(h[k], id, fid);
    }
  }

  lemma NotedIsSound(h: seq<Event>, e: Event, events: seq<P.Event>, pid: nat)
    requires SoundSoFar(h, events, pid)
    ensures SoundSoFar(h + [e], events + Noted(e, pid), pid)
  {
    var before := P.Run(P.NOTHING_SEEN, events);
    if Noted(e, pid) == [] {
      assert events + [] == events;
    } else {
      RunParts(P.NOTHING_SEEN, events, Noted(e, pid));
      OneEvent(before, Noted(e, pid)[0]);
    }
    forall id: nat, fid: nat | CameInFor(h + [e], (pid, id), fid)
      ensures id <= P.Run(P.NOTHING_SEEN, events + Noted(e, pid)).max
    {
      CameInLast(h, e, (pid, id), fid);
    }
  }

  lemma ToldIsSound(h: seq<Event>, events: seq<P.Event>, ids: seq<(nat, nat)>, pid: nat, minFid: nat)
    requires SoundSoFar(h, events, pid) && AllSettled(h, ids, minFid)
    ensures SoundSoFar(h, events + Told(ids, pid), pid)
  {
    var before := P.Run(P.NOTHING_SEEN, events);
    forall id | id in ids && id.0 == pid ensures id.1 <= before.max {
      var fid: nat :| fid <= minFid && CameInFor(h, id, fid);
      assert id == (pid, id.1);
    }
    TellingIsSound(before, ids, pid);
    RunParts(P.NOTHING_SEEN, events, Told(ids, pid));
  }

  lemma NextIsSound(front: seq<Event>, last: Event, events: seq<P.Event>, ids: seq<(nat, nat)>, pid: nat, minFid: nat)
    requires SoundSoFar(front, events, pid) && AllSettled(front + [last], ids, minFid)
    ensures SoundSoFar(front + [last], events + Noted(last, pid) + Told(ids, pid), pid)
  {
    NotedIsSound(front, last, events, pid);
    ToldIsSound(front + [last], events + Noted(last, pid), ids, pid, minFid);
  }

  /** Over every run, whatever the frame layer tells a path to consume has come in on that path before, and so
      meets what the path's tables ask of it. */
  lemma {:induction false} PathStaysSound(sources: Sources, traced: bool, h: seq<Event>, pid: nat)
    requires AllGenuine(sources, h)
    ensures SoundSoFar(h, PathEvents(sources, traced, h, pid), pid)
    decreases |h|
  {
    if h != [] {
      var front, last := h[..|h| - 1], h[|h| - 1];
      assert h == front + [last];
      PathStaysSound(sources, traced, front, pid);
      RunConsumes(sources, traced, h);
      NextIsSound(front, last, PathEvents(sources, traced, front, pid), NewlyConsumed(sources, traced, h), pid,
                  Run(sources, true, traced, h).minFid);
    }
  }
}
