/** The ids that packets get on their paths: the sender hands its segments over frame by frame, and every path numbers
    what it is given from 1. */
module Numbering {
  import opened MpSender
  import opened Ordered
  import opened Outbox
  import opened Schedule
  import opened SegmentCodec
  import opened Sequences
  import opened Splitting

  // ---- handing over ----

  predicate PieceOf(shots: map<nat, Shot>, seg: Segment) {
    && seg.fid in shots && shots[seg.fid].fid == seg.fid && seg.index < |Cut(shots[seg.fid].data)| < 0x1_0000
    && seg == Piece(shots[seg.fid], seg.index)
  }

  ghost predicate AllPieces(shots: map<nat, Shot>, puts: seq<(nat, Segment)>) {
    forall k :: 0 <= k < |puts| ==> PieceOf(shots, puts[k].1)
  }

  ghost predicate FramesRise(puts: seq<(nat, Segment)>) {
    forall a, b :: 0 <= a <= b < |puts| ==> puts[a].1.fid <= puts[b].1.fid
  }

  /** What is pending: pieces of frames sent, in the order of the frames. */
  ghost predicate PendingInOrder(shots: map<nat, Shot>, pending: map<nat, Segment>) {
    && (forall id :: id in pending ==> PieceOf(shots, pending[id]))
    && (forall a, b :: a in pending && b in pending && a <= b ==> pending[a].fid <= pending[b].fid)
  }

  ghost predicate NotAfter(puts: seq<(nat, Segment)>, pending: map<nat, Segment>) {
    forall k, id :: 0 <= k < |puts| && id in pending ==> puts[k].1.fid <= pending[id].fid
  }

  /** All of frames before the next one. */
  ghost predicate BeforeNext(puts: seq<(nat, Segment)>, pending: map<nat, Segment>, next: nat) {
    && (forall k :: 0 <= k < |puts| ==> puts[k].1.fid < next)
    && (forall id :: id in pending ==> pending[id].fid < next)
  }

  /** Pieces of frames sent are handed over and pending, frame by frame. */
  ghost predicate SentInOrder(shots: map<nat, Shot>, puts: seq<(nat, Segment)>, pending: map<nat, Segment>, next: nat) {
    && AllPieces(shots, puts) && FramesRise(puts)
    && PendingInOrder(shots, pending) && NotAfter(puts, pending) && BeforeNext(puts, pending, next)
  }

  lemma PieceStill(shots: map<nat, Shot>, s: Shot, seg: Segment)
    requires PieceOf(shots, seg) && seg.fid < s.fid
    ensures PieceOf(shots[s.fid := s], seg)
  {
  }

  lemma PutsStill(shots: map<nat, Shot>, puts: seq<(nat, Segment)>, pending: map<nat, Segment>, s: Shot)
    requires AllPieces(shots, puts) && PendingInOrder(shots, pending) && BeforeNext(puts, pending, s.fid)
    ensures AllPieces(shots[s.fid := s], puts) && PendingInOrder(shots[s.fid := s], pending)
  {
    forall k | 0 <= k < |puts| ensures PieceOf(shots[s.fid := s], puts[k].1) {
      PieceStill(shots, s, puts[k].1);
    }
    forall id | id in pending ensures PieceOf(shots[s.fid := s], pending[id]) {
      PieceStill(shots, s, pending[id]);
    }
  }

  lemma NewPieces(shots: map<nat, Shot>, s: Shot, seed: nat, id: nat)
    requires s.fid in shots && shots[s.fid] == s && |Cut(s.data)| < 0x1_0000
    ensures var pieces := Pieces(s, seed, |Cut(s.data)|);
            id in pieces ==> id >= seed && PieceOf(shots, pieces[id]) && pieces[id].fid == s.fid
  {
    PiecesAt(s, seed, |Cut(s.data)|, id);
  }

  lemma PendingGrows(shots: map<nat, Shot>, pending: map<nat, Segment>, more: map<nat, Segment>, seed: nat, fid: nat)
    requires PendingInOrder(shots, pending)
    requires forall id :: id in pending ==> id < seed && pending[id].fid < fid
    requires forall id :: id in more ==> id >= seed && PieceOf(shots, more[id]) && more[id].fid == fid
    ensures PendingInOrder(shots, pending + more)
  {
  }

  /** Queueing the pieces of the next frame keeps the order. */
  lemma QueueKeepsOrder(shots: map<nat, Shot>, puts: seq<(nat, Segment)>, pending: map<nat, Segment>, s: Shot,
                        seed: nat)
    requires SentInOrder(shots, puts, pending, s.fid) && |Cut(s.data)| < 0x1_0000
    requires forall id :: id in pending ==> id < seed
    ensures SentInOrder(shots[s.fid := s], puts, pending + Pieces(s, seed, |Cut(s.data)|), s.fid + 1)
  {
    PutsStill(shots, puts, pending, s);
    forall id: nat
      ensures var pieces := Pieces(s, seed, |Cut(s.data)|);
              id in pieces ==> id >= seed && PieceOf(shots[s.fid := s], pieces[id]) && pieces[id].fid == s.fid
    {
      NewPieces(shots[s.fid := s], s, seed, id);
    }
    PendingGrows(shots[s.fid := s], pending, Pieces(s, seed, |Cut(s.data)|), seed, s.fid);
  }

  /** The next call hands over a piece that comes after all that were, and before all that are still pending. */
  lemma PutKeepsOrder(shots: map<nat, Shot>, puts: seq<(nat, Segment)>, pending: map<nat, Segment>, id: nat, pid: nat,
                      next: nat)
    requires SentInOrder(shots, puts, pending, next) && id in pending && forall x :: x in pending ==> id <= x
    ensures SentInOrder(shots, puts + [(pid, pending[id])], pending - {id}, next)
  {
  }

  lemma LeastIsNext(pending: map<nat, Segment>, ids: seq<nat>, t: nat)
    requires InOrder(ids, pending.Keys) && t < |ids|
    ensures forall x :: x in Less(pending, ids[..t]) ==> ids[t] <= x
  {
    forall k | 0 <= k < t ensures ids[k] in ids[..t] {
      assert ids[..t][k] == ids[k];
    }
    forall x | x in Less(pending, ids[..t]) ensures ids[t] <= x {
      LessAt(pending, ids[..t], x);
      assert x in ids;
    }
  }

  /** What n calls of a schedule leave. */
  ghost predicate InOrderAfter(shots: map<nat, Shot>, puts: seq<(nat, Segment)>, pending: map<nat, Segment>,
                               calls: seq<Assignment>, n: nat, next: nat)
    requires n <= |calls| && AllPending(pending, PacketIds(calls))
  {
    SentInOrder(shots, puts + Puts(pending, calls, n), Less(pending, PacketIds(calls)[..n]), next)
  }

  lemma CallKeepsOrder(shots: map<nat, Shot>, puts: seq<(nat, Segment)>, pending: map<nat, Segment>,
                       calls: seq<Assignment>, n: nat, next: nat)
    requires n < |calls| && InOrder(PacketIds(calls), pending.Keys) && AllPending(pending, PacketIds(calls))
    requires InOrderAfter(shots, puts, pending, calls, n, next)
    ensures InOrderAfter(shots, puts, pending, calls, n + 1, next)
  {
    var ids, before := PacketIds(calls), puts + Puts(pending, calls, n);
    NextPending(pending, ids, n);
    LeastIsNext(pending, ids, n);
    PutKeepsOrder(shots, before, Less(pending, ids[..n]), ids[n], calls[n].pid, next);
    assert puts + Puts(pending, calls, n + 1) == before + [(calls[n].pid, pending[ids[n]])];
  }

  lemma {:induction false} CallsKeepOrder(shots: map<nat, Shot>, puts: seq<(nat, Segment)>, pending: map<nat, Segment>,
                                          calls: seq<Assignment>, n: nat, next: nat)
    requires n <= |calls| && InOrder(PacketIds(calls), pending.Keys) && AllPending(pending, PacketIds(calls))
    requires SentInOrder(shots, puts, pending, next)
    ensures InOrderAfter(shots, puts, pending, calls, n, next)
    decreases n
  {
    if n == 0 {
      assert puts + Puts(pending, calls, 0) == puts;
    } else {
      CallsKeepOrder(shots, puts, pending, calls, n - 1, next);
      CallKeepsOrder(shots, puts, pending, calls, n - 1, next);
    }
  }

  lemma NothingStays(pending: map<nat, Segment>, ids: seq<nat>, n: nat)
    requires InOrder(ids, pending.Keys) && n == |ids|
    ensures AllPending(pending, ids) && Less(pending, ids[..n]) == map[]
  {
    TakeAll(ids);
    AllMoved(map[], pending, ids);
  }

  lemma AllLeave(pending: map<nat, Segment>, calls: seq<Assignment>)
    requires EachPacketOnce(calls, Lengths(pending))
    ensures InOrder(PacketIds(calls), pending.Keys) && AllPending(pending, PacketIds(calls))
    ensures Less(pending, PacketIds(calls)[..|calls|]) == map[]
  {
    assert Lengths(pending).Keys == pending.Keys;
    NothingStays(pending, PacketIds(calls), |calls|);
  }

  /** A full schedule, which goes through the pending packets in order, keeps it too. */
  lemma ScheduleKeepsOrder(shots: map<nat, Shot>, puts: seq<(nat, Segment)>, pending: map<nat, Segment>,
                           calls: seq<Assignment>, next: nat)
    requires SentInOrder(shots, puts, pending, next) && EachPacketOnce(calls, Lengths(pending))
    ensures AllPending(pending, PacketIds(calls))
    ensures SentInOrder(shots, puts + Puts(pending, calls, |calls|), map[], next)
  {
    AllLeave(pending, calls);
    CallsKeepOrder(shots, puts, pending, calls, |calls|, next);
  }

  // ---- numbering ----

  /** How many of the first n segments handed over went to the path. */
  ghost function PutsOn(puts: seq<(nat, Segment)>, pid: nat, n: nat): nat
    requires n <= |puts|
  {
    if n == 0 then 0 else PutsOn(puts, pid, n - 1) + (if puts[n - 1].0 == pid then 1 else 0)
  }

  /** The path's number for the k-th segment handed over. */
  ghost function NumberOf(puts: seq<(nat, Segment)>, k: nat): nat
    requires k < |puts|
  {
    PutsOn(puts, puts[k].0, k) + 1
  }

  lemma {:induction false} PutsOnRises(puts: seq<(nat, Segment)>, pid: nat, a: nat, b: nat)
    requires a <= b <= |puts|
    ensures PutsOn(puts, pid, a) <= PutsOn(puts, pid, b)
    ensures a < b && puts[a].0 == pid ==> PutsOn(puts, pid, a) < PutsOn(puts, pid, b)
    decreases b
  {
    if a < b {
      PutsOnRises(puts, pid, a, b - 1);
    }
  }

  /** On one path numbers tell segments apart, and rise with the frames. */
  lemma NumbersRise(puts: seq<(nat, Segment)>, a: nat, b: nat)
    requires FramesRise(puts) && a < |puts| && b < |puts| && puts[a].0 == puts[b].0
    ensures NumberOf(puts, a) == NumberOf(puts, b) <==> a == b
    ensures NumberOf(puts, a) <= NumberOf(puts, b) ==> puts[a].1.fid <= puts[b].1.fid
  {
    if a < b {
      PutsOnRises(puts, puts[a].0, a, b);
    } else if b < a {
      PutsOnRises(puts, puts[a].0, b, a);
    }
  }
}
