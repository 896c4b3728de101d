/** The sequence tables of a receiving path: the received prefix, what came above
    it, and what is missing in between. */
module PathReceiver {
  import opened Ordered

  const NACK_NUM: nat := 80
  const ACK_REAL_TIME: nat := 20
  const ACK_HB_TIME: nat := 200

  // ---- the tables as functions of what has been seen ----

  ghost function UpTo(n: nat): (s: set<nat>)
    ensures forall x :: x in s <==> 0 <= x <= n
  {
    if n == 0 then {0} else UpTo(n - 1) + {n}
  }

  ghost function Above(seen: set<nat>, b: nat): set<nat> {
    set x | x in seen && x > b
  }

  /** Everything between the prefix and the highest id that has not come. */
  ghost function Missing(seen: set<nat>, b: nat, max: nat): set<nat> {
    set x | x in UpTo(max) && b < x && x !in seen
  }

  ghost predicate AllUpTo(seen: set<nat>, b: nat) {
    forall x: nat :: x <= b ==> x in seen
  }

  /** b is the largest number with 0..b all seen. */
  ghost predicate IsBase(seen: set<nat>, b: nat) {
    AllUpTo(seen, b) && b + 1 !in seen
  }

  lemma BaseUnique(seen: set<nat>, b: nat, c: nat)
    requires IsBase(seen, b) && IsBase(seen, c)
    ensures b == c
  {
  }

  /** Seeing more never lowers the base. */
  lemma BaseMonotone(seen: set<nat>, more: set<nat>, b: nat, c: nat)
    requires seen <= more && IsBase(seen, b) && IsBase(more, c)
    ensures b <= c
  {
  }

  /** What a path has seen: all ids that came, and all ids up to where it started
      or was told to consume; and the highest of them. */
  datatype History = History(seen: set<nat>, max: nat) {
    ghost predicate Valid() {
      0 in seen && max in seen && forall x :: x in seen ==> x <= max
    }
  }

  /** A new path's history. */
  const NOTHING_SEEN := History({0}, 0)

  datatype Event = Arrival(id: nat, index: nat) | Consumed(id: nat)

  /** The first id that comes decides where the path starts: before its frame. */
  ghost function Arrive(h: History, id: nat, index: nat): History {
    if h.max == 0 && id > index then History(h.seen + UpTo(id - index - 1) + {id}, id)
    else History(h.seen + {id}, if h.max > id then h.max else id)
  }

  ghost function Step(h: History, e: Event): History {
    match e
    case Arrival(id, index) => if id in h.seen then h else Arrive(h, id, index)
    case Consumed(id) => History(h.seen + UpTo(id), h.max)
  }

  /** An id passes to the frame layer when it is new, or when it repeats the base. */
  ghost predicate Passes(seen: set<nat>, id: nat) {
    id !in seen || IsBase(seen, id)
  }

  datatype Ack = NoAck | Ack(basePacketId: nat, ackedPacketId: nat, nack: seq<nat>)

  class PathReceiver {
    var baseSeq: nat
    var maxSeq: nat
    var loss: set<nat>
    var recvTable: set<nat>
    var ackTs: nat
    ghost var history: History

    ghost predicate Valid()
      reads this
    {
      && history.Valid() && history.max == maxSeq
      && IsBase(history.seen, baseSeq)
      && recvTable == Above(history.seen, baseSeq)
      && loss == Missing(history.seen, baseSeq, maxSeq)
    }

    constructor ()
      ensures Valid() && history == NOTHING_SEEN && ackTs == 0
    {
      baseSeq, maxSeq, loss, recvTable, ackTs := 0, 0, {}, {}, 0;
      history := NOTHING_SEEN;
    }

    method LossTableSeqExist(id: nat) returns (ret: bool)
      ensures ret <==> id in loss
    {
      var keys := Iterate(loss);
      ret := false;
      for k := 0 to |keys|
        invariant !ret && id !in keys[..k]
      {
        if keys[k] == id {
          return true;
        }
      }
    }

    method UpdataLoss(id: nat)
      modifies this`loss
      ensures loss == old(loss) - {id} + set x | x in UpTo(id) && maxSeq < x < id
    {
      loss := loss - {id};
      var i := maxSeq + 1;
      while i < id
        invariant loss == old(loss) - {id} + set x | x in UpTo(id) && maxSeq < x < i && x < id
      {
        var exist := LossTableSeqExist(i);
        if !exist {
          loss := loss + {i};
        }
        i := i + 1;
      }
    }

    /** Erases the ids up to `id` from the front of the table. */
    method RecvTableErase(id: nat)
      modifies this`recvTable
      ensures recvTable == Above(old(recvTable), id)
    {
      while recvTable != {}
        invariant recvTable <= old(recvTable)
        invariant forall x :: x in old(recvTable) && x !in recvTable ==> x <= id
        decreases |recvTable|
      {
        var key := Least(recvTable);
        if key <= id {
          recvTable := recvTable - {key};
        } else {
          break;
        }
      }
    }

    /** Moves the base over the ids that follow it without a gap. */
    method RecvTableAdvance(ghost seen: set<nat>)
      requires AllUpTo(seen, baseSeq) && recvTable == Above(seen, baseSeq)
      modifies this`recvTable, this`baseSeq
      ensures IsBase(seen, baseSeq) && recvTable == Above(seen, baseSeq) && baseSeq >= old(baseSeq)
    {
      while recvTable != {}
        invariant AllUpTo(seen, baseSeq) && recvTable == Above(seen, baseSeq) && baseSeq >= old(baseSeq)
        decreases |recvTable|
      {
        var key := Least(recvTable);
        if key == baseSeq + 1 {
          recvTable := recvTable - {key};
          baseSeq := key;
        } else {
          break;
        }
      }
      assert baseSeq + 1 !in recvTable;
    }

    method UpdataRecvTable(id: nat, ghost seen: set<nat>)
      requires AllUpTo(seen, baseSeq) && id in seen
      requires forall x :: x > baseSeq ==> (x in recvTable || x == id <==> x in seen)
      modifies this`recvTable, this`baseSeq
      ensures IsBase(seen, baseSeq) && recvTable == Above(seen, baseSeq) && baseSeq >= old(baseSeq)
    {
      if id == baseSeq + 1 {
        baseSeq := id;
      } else {
        recvTable := recvTable + {id};
      }
      ghost var merged := recvTable;
      RecvTableErase(baseSeq);
      assert recvTable == Above(seen, baseSeq);
      RecvTableAdvance(seen);
    }

    method LossTableRemoveUntil(id: nat)
      modifies this`loss
      ensures loss == Above(old(loss), id)
    {
      var keys := Iterate(loss);
      for k := 0 to |keys|
        invariant loss <= old(loss)
        invariant forall j :: 0 <= j < k ==> keys[j] <= id && keys[j] !in loss
        invariant forall x :: x in old(loss) && x !in loss ==> x <= id
      {
        if keys[k] <= id {
          loss := loss - {keys[k]};
        } else {
          break;
        }
      }
    }

    method RecvTableRemoveUntil(id: nat, ghost seen: set<nat>)
      requires AllUpTo(seen, baseSeq) && AllUpTo(seen, id)
      requires Above(recvTable, id) == Above(seen, if baseSeq <= id then id else baseSeq)
      modifies this`recvTable, this`baseSeq
      ensures IsBase(seen, baseSeq) && recvTable == Above(seen, baseSeq) && baseSeq >= old(baseSeq)
    {
      RecvTableErase(id);
      if baseSeq <= id {
        baseSeq := id;
      }
      RecvTableAdvance(seen);
    }

    method CheckRecvTableExist(id: nat) returns (ret: bool)
      ensures ret <==> id in recvTable
    {
      ret := id in recvTable;
    }

    method OnReceiveSegment(id: nat, index: nat, now: nat) returns (passed: bool, ack: Ack)
      requires Valid()
      modifies this
      ensures Valid() && baseSeq >= old(baseSeq)
      ensures passed <==> Passes(old(history.seen), id)
      ensures history == Step(old(history), Arrival(id, index))
      ensures if passed && AckDue(old(ackTs), false, now) then IsAck(ack, baseSeq, id, loss) && ackTs == now
              else ack == NoAck && ackTs == old(ackTs)
    {
      ack := NoAck;
      var exist := CheckRecvTableExist(id);
      if exist {
        return false, ack;
      }
      if id < baseSeq {
        return false, ack;
      }
      passed := true;
      ghost var before := history;
      if maxSeq == 0 && id > index {
        StartUp(before, baseSeq, id - index - 1);
        maxSeq := id - index - 1;
        baseSeq := id - index - 1;
        history := History(before.seen + UpTo(maxSeq), maxSeq);
      }
      UpdateTables(id);
      assert id in before.seen ==> before.seen + {id} == before.seen;
      ack := VideoRealAck(false, id, now);
    }

    method UpdateTables(id: nat)
      requires Valid() && (id in history.seen ==> id == baseSeq)
      modifies this`loss, this`maxSeq, this`baseSeq, this`recvTable, this`history
      ensures Valid() && baseSeq >= old(baseSeq)
      ensures history.seen == old(history.seen) + {id} && maxSeq == if old(maxSeq) > id then old(maxSeq) else id
    {
      ghost var seen, base := history.seen, baseSeq;
      assert base in seen;
      UpdataLoss(id);
      maxSeq := if maxSeq > id then maxSeq else id;
      history := History(seen + {id}, maxSeq);
      UpdataRecvTable(id, history.seen);
      MissingAbove(history.seen, base, baseSeq, maxSeq);
    }

    /** The frame layer is done with an id that came over this path. */
    method Consume(id: nat)
      requires Valid() && id <= maxSeq
      modifies this
      ensures Valid() && baseSeq >= old(baseSeq) && baseSeq >= id
      ensures history == Step(old(history), Consumed(id))
    {
      ghost var before, base := history.seen, baseSeq;
      history := Step(history, Consumed(id));
      LossTableRemoveUntil(id);
      RecvTableRemoveUntil(id, history.seen);
      MissingConsumed(before, base, id, baseSeq, maxSeq);
    }

    /** Reports the base and the highest missing ids, when an ack is due. */
    method VideoRealAck(hb: bool, id: nat, now: nat) returns (ack: Ack)
      requires Valid()
      modifies this`ackTs
      ensures if AckDue(old(ackTs), hb, now) then IsAck(ack, baseSeq, id, loss) && ackTs == now
              else ack == NoAck && ackTs == old(ackTs)
    {
      ack := NoAck;
      if (!hb && ackTs + ACK_REAL_TIME < now) || ackTs + ACK_HB_TIME < now {
        var keys := Iterate(loss);
        var first := if |keys| > NACK_NUM then |keys| - NACK_NUM else 0;
        var nack: seq<nat> := [];
        for k := first to |keys|
          invariant |nack| == k - first
          invariant forall j :: 0 <= j < |nack| ==> nack[j] == (keys[first + j] - baseSeq) % 0x1_0000
        {
          assert keys[k] in loss;
          if |nack| < NACK_NUM {
            nack := nack + [(keys[k] - baseSeq) % 0x1_0000];
          }
        }
        ack := Ack(baseSeq, id, nack);
        ackTs := now;
      }
    }
  }

  /** Before the first id nothing but 0 has been seen, and the tables are empty. */
  lemma StartUp(h: History, base: nat, start: nat)
    requires h.Valid() && h.max == 0 && IsBase(h.seen, base)
    ensures base == 0 && Above(h.seen, 0) == {} && Missing(h.seen, 0, 0) == {}
    ensures History(h.seen + UpTo(start), start).Valid()
    ensures IsBase(h.seen + UpTo(start), start)
    ensures Above(h.seen + UpTo(start), start) == {} && Missing(h.seen + UpTo(start), start, start) == {}
  {
    assert base in h.seen;
  }

  lemma MissingAbove(seen: set<nat>, b: nat, c: nat, max: nat)
    requires b <= c && AllUpTo(seen, c)
    ensures Missing(seen, b, max) == Missing(seen, c, max)
  {
  }

  lemma MissingConsumed(seen: set<nat>, b: nat, id: nat, c: nat, max: nat)
    requires AllUpTo(seen, b) && b <= c && id <= c && AllUpTo(seen + UpTo(id), c)
    ensures Above(Missing(seen, b, max), id) == Missing(seen + UpTo(id), c, max)
  {
    forall x: nat
      ensures x in Above(Missing(seen, b, max), id) <==> x in Missing(seen + UpTo(id), c, max)
    {
      assert x in UpTo(id) <==> x <= id;
      if b < x <= c && x > id {
        assert x in seen + UpTo(id);
      }
    }
  }

  ghost predicate AckDue(ackTs: nat, hb: bool, now: nat) {
    (!hb && ackTs + ACK_REAL_TIME < now) || ackTs + ACK_HB_TIME < now
  }

  /** The ack names the (at most NACK_NUM) highest missing ids, each as its 16-bit
      distance from the base, in ascending order. */
  ghost predicate IsAck(ack: Ack, base: nat, id: nat, loss: set<nat>) {
    && ack.Ack? && ack.basePacketId == base && ack.ackedPacketId == id
    && exists keys :: InOrder(keys, loss) && IsNackList(ack.nack, keys, base)
  }

  ghost predicate IsNackList(nack: seq<nat>, keys: seq<nat>, base: nat) {
    var first := FirstNamed(keys);
    && |nack| == |keys| - first
    && forall j :: 0 <= j < |nack| ==> nack[j] == (keys[first + j] - base) % 0x1_0000
  }

  // ---- whole runs ----

  ghost function Run(h: History, events: seq<Event>): History
    decreases |events|
  {
    if events == [] then h else Run(Step(h, events[0]), events[1..])
  }

  /** Only ids that came, or lie below one that came, are consumed. */
  ghost predicate Sound(h: History, events: seq<Event>)
    decreases |events|
  {
    events == [] || ((events[0].Consumed? ==> events[0].id <= h.max) && Sound(Step(h, events[0]), events[1..]))
  }

  /** The event accounts for x having been seen. */
  ghost predicate Explains(e: Event, x: nat) {
    match e
    case Arrival(id, _) => x == id
    case Consumed(id) => x <= id
  }

  ghost predicate Explained(events: seq<Event>, x: nat) {
    exists k :: 0 <= k < |events| && Explains(events[k], x)
  }

  lemma ExplainedFirst(events: seq<Event>, x: nat)
    requires events != []
    ensures Explained(events, x) <==> Explains(events[0], x) || Explained(events[1..], x)
  {
    if Explained(events[1..], x) {
      var k :| 0 <= k < |events[1..]| && Explains(events[1..][k], x);
      assert Explains(events[k + 1], x);
    }
    if Explained(events, x) && !Explains(events[0], x) {
      var k :| 0 <= k < |events| && Explains(events[k], x);
      assert Explains(events[1..][k - 1], x);
    }
  }

  /** After a started path has run, exactly what the events account for is seen. */
  lemma {:induction false} RunSeesExactly(h: History, events: seq<Event>)
    requires h.Valid() && h.max > 0 && Sound(h, events)
    ensures Run(h, events).Valid()
    ensures forall x :: x in Run(h, events).seen <==> x in h.seen || Explained(events, x)
    decreases |events|
  {
    if events != [] {
      var e := events[0];
      var next := Step(h, e);
      RunSeesExactly(next, events[1..]);
      forall x: nat
        ensures x in Run(h, events).seen <==> x in h.seen || Explained(events, x)
      {
        ExplainedFirst(events, x);
        assert x in next.seen <==> x in h.seen || Explains(e, x);
      }
    }
  }

  /** Where a new path starts: before the frame of the first id that comes. */
  ghost function StartOf(events: seq<Event>): nat {
    if events == [] then 0
    else match events[0]
      case Arrival(id, index) =>
        if id > index then id - index - 1 else if id > 0 then 0 else StartOf(events[1..])
      case Consumed(_) => StartOf(events[1..])
  }

  /** A new path has seen exactly the ids up to its start and what the events account for. */
  lemma {:induction false} RunFromNothing(events: seq<Event>)
    requires Sound(NOTHING_SEEN, events)
    ensures Run(NOTHING_SEEN, events).Valid()
    ensures forall x: nat :: x in Run(NOTHING_SEEN, events).seen <==> x <= StartOf(events) || Explained(events, x)
    decreases |events|
  {
    if events != [] {
      var e := events[0];
      var next := Step(NOTHING_SEEN, e);
      if e.id == 0 {
        NothingNew(e);
        RunFromNothing(events[1..]);
      } else {
        RunSeesExactly(next, events[1..]);
      }
      forall x: nat
        ensures x in Run(NOTHING_SEEN, events).seen <==> x <= StartOf(events) || Explained(events, x)
      {
        ExplainedFirst(events, x);
      }
    }
  }

  lemma NothingNew(e: Event)
    requires e.id == 0
    ensures Step(NOTHING_SEEN, e) == NOTHING_SEEN
  {
    if e.Consumed? {
      assert NOTHING_SEEN.seen + UpTo(0) == NOTHING_SEEN.seen;
    }
  }

  ghost predicate SameEvents(a: seq<Event>, b: seq<Event>) {
    forall e :: e in a <==> e in b
  }

  lemma ExplainedBySame(a: seq<Event>, b: seq<Event>, x: nat)
    requires SameEvents(a, b) && Explained(a, x)
    ensures Explained(b, x)
  {
    var k :| 0 <= k < |a| && Explains(a[k], x);
    assert a[k] in b;
    var j :| 0 <= j < |b| && b[j] == a[k];
    assert Explains(b[j], x);
  }

  /** The tables of a started path do not depend on the order of its events, nor on
      how often an id came. */
  lemma OrderDoesNotMatter(h: History, a: seq<Event>, b: seq<Event>)
    requires h.Valid() && h.max > 0 && Sound(h, a) && Sound(h, b) && SameEvents(a, b)
    ensures Run(h, a) == Run(h, b)
  {
    RunSeesExactly(h, a);
    RunSeesExactly(h, b);
    forall x: nat
      ensures x in Run(h, a).seen <==> x in Run(h, b).seen
    {
      if Explained(a, x) {
        ExplainedBySame(a, b, x);
      }
      if Explained(b, x) {
        ExplainedBySame(b, a, x);
      }
    }
    assert Run(h, a).seen == Run(h, b).seen;
  }

  /** In every run the base only rises. */
  lemma {:induction false} RunRaisesBase(h: History, events: seq<Event>, b: nat, c: nat)
    requires h.Valid() && Sound(h, events) && IsBase(h.seen, b) && IsBase(Run(h, events).seen, c)
    ensures b <= c
  {
    RunKeepsSeen(h, events);
    BaseMonotone(h.seen, Run(h, events).seen, b, c);
  }

  lemma {:induction false} RunKeepsSeen(h: History, events: seq<Event>)
    ensures h.seen <= Run(h, events).seen
    decreases |events|
  {
    if events != [] {
      RunKeepsSeen(Step(h, events[0]), events[1..]);
    }
  }

  /** On the first arrival exactly the earlier segments of its frame are missing. */
  lemma FirstArrivalMisses(id: nat, index: nat, b: nat)
    requires id > index
    ensures var h := Step(NOTHING_SEEN, Arrival(id, index));
            && h.max == id
            && (IsBase(h.seen, b) <==> b == if index == 0 then id else id - index - 1)
            && (IsBase(h.seen, b) ==> Missing(h.seen, b, id) == set x | x in UpTo(id) && id - index <= x < id)
  {
    var h := Step(NOTHING_SEEN, Arrival(id, index));
    assert forall x :: x in h.seen <==> 0 <= x < id - index || x == id;
    var start := if index == 0 then id else id - index - 1;
    assert AllUpTo(h.seen, start) && start + 1 !in h.seen;
    if IsBase(h.seen, b) {
      BaseUnique(h.seen, b, start);
    }
  }

  // ---- what an ack says ----

  ghost predicate Names(ack: Ack, id: nat)
    requires ack.Ack?
  {
    exists j :: 0 <= j < |ack.nack| && ack.basePacketId + ack.nack[j] == id
  }

  function FirstNamed(keys: seq<nat>): nat {
    if |keys| > NACK_NUM then |keys| - NACK_NUM else 0
  }

  ghost predicate InTail(keys: seq<nat>, x: nat) {
    exists i :: FirstNamed(keys) <= i < |keys| && keys[i] == x
  }

  /** An entry decodes to the id it stands for exactly when the gap fits 16 bits. */
  lemma EntryDecodesIff(nack: seq<nat>, keys: seq<nat>, base: nat, j: nat)
    requires IsNackList(nack, keys, base) && j < |nack| && keys[FirstNamed(keys) + j] > base
    ensures base + nack[j] == keys[FirstNamed(keys) + j] <==> keys[FirstNamed(keys) + j] - base < 0x1_0000
  {
  }

  lemma NamesTheTail(ack: Ack, keys: seq<nat>, base: nat, x: nat)
    requires ack.Ack? && ack.basePacketId == base && IsNackList(ack.nack, keys, base)
    requires forall i :: 0 <= i < |keys| ==> base < keys[i] < base + 0x1_0000
    ensures Names(ack, x) <==> InTail(keys, x)
  {
    var first := FirstNamed(keys);
    if Names(ack, x) {
      var j :| 0 <= j < |ack.nack| && ack.basePacketId + ack.nack[j] == x;
      EntryDecodesIff(ack.nack, keys, base, j);
      assert keys[first + j] == x;
    }
    if InTail(keys, x) {
      var i :| first <= i < |keys| && keys[i] == x;
      EntryDecodesIff(ack.nack, keys, base, i - first);
      assert ack.basePacketId + ack.nack[i - first] == x;
    }
  }

  /** While the gap fits 16 bits, an ack names missing ids only, never skips a higher
      one for a lower one, and names them all when there are at most NACK_NUM. */
  lemma AckNamesHighestMissing(ack: Ack, base: nat, id: nat, loss: set<nat>, x: nat)
    requires IsAck(ack, base, id, loss)
    requires forall y :: y in loss ==> base < y < base + 0x1_0000
    ensures |ack.nack| == if |loss| > NACK_NUM then NACK_NUM else |loss|
    ensures Names(ack, x) ==> x in loss
    ensures x in loss && !Names(ack, x) ==> forall y :: Names(ack, y) ==> x < y
    ensures x in loss && |loss| <= NACK_NUM ==> Names(ack, x)
  {
    var keys :| InOrder(keys, loss) && IsNackList(ack.nack, keys, base);
    assert forall i :: 0 <= i < |keys| ==> keys[i] in loss;
    forall y
      ensures Names(ack, y) <==> InTail(keys, y)
    {
      NamesTheTail(ack, keys, base, y);
    }
  }
}
