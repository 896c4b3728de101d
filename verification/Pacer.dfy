/** The ideal pacer: what it lets out in any window of time. Times are in microseconds. */
module Pacer {
  import opened Arithmetic

  const ALARM_GRANULARITY: nat := 1000

  /** A packet leaving at `at` that takes `delay` to transfer at the pacing rate. */
  datatype Send = Send(at: nat, delay: nat)

  /** When the pacer would ideally send next. */
  function NextAfter(sends: seq<Send>): nat {
    if sends == [] then 0
    else
      var s := sends[|sends| - 1];
      Max(NextAfter(sends[..|sends| - 1]) + s.delay, s.at + s.delay)
  }

  /** TimeUntilSend */
  function Wait(next: nat, now: nat): nat {
    if next > now + ALARM_GRANULARITY then next - now else 0
  }

  /** The transfer times of the sends from i on. */
  function Load(sends: seq<Send>, i: nat): nat
    requires i <= |sends|
    decreases |sends| - i
  {
    if i == |sends| then 0 else sends[i].delay + Load(sends, i + 1)
  }

  lemma {:induction false} LoadLast(sends: seq<Send>, i: nat)
    requires i < |sends|
    ensures Load(sends, i) == Load(sends[..|sends| - 1], i) + sends[|sends| - 1].delay
    decreases |sends| - i
  {
    if i < |sends| - 1 {
      LoadLast(sends, i + 1);
    }
  }

  /** The latest of all windows' ends: each starts with a send - or at time zero - and lasts
      as long as what is sent in it takes. */
  ghost predicate WindowsEndBy(sends: seq<Send>, end: nat) {
    Load(sends, 0) <= end && forall i :: 0 <= i < |sends| ==> sends[i].at + Load(sends, i) <= end
  }

  /** The next send time is exactly the least time by which all windows end. */
  lemma {:induction false} NextIsLatestWindow(sends: seq<Send>, end: nat)
    ensures NextAfter(sends) <= end <==> WindowsEndBy(sends, end)
    decreases |sends|
  {
    if sends != [] {
      var n := |sends| - 1;
      var front, d := sends[..n], sends[n].delay;
      assert Load(sends, n) == d + Load(sends, n + 1);
      if WindowsEndBy(sends, end) {
        assert sends[n].at + Load(sends, n) <= end;
        LoadLast(sends, 0);
        forall i | 0 <= i < n ensures front[i].at + Load(front, i) <= end - d {
          LoadLast(sends, i);
          assert sends[i].at + Load(sends, i) <= end;
        }
        assert WindowsEndBy(front, end - d);
        NextIsLatestWindow(front, end - d);
      }
      if NextAfter(sends) <= end {
        NextIsLatestWindow(front, end - d);
        LoadLast(sends, 0);
        forall i | 0 <= i < |sends| ensures sends[i].at + Load(sends, i) <= end {
          if i < n {
            LoadLast(sends, i);
            assert front[i].at + Load(front, i) <= end - d;
          }
        }
      }
    }
  }

  // ---- whole runs ----

  /** Every packet left when the pacer said so. */
  ghost predicate Paced(sends: seq<Send>) {
    forall j :: 0 <= j < |sends| ==> PacedAt(sends, j)
  }

  ghost predicate PacedAt(sends: seq<Send>, j: nat)
    requires j < |sends|
  {
    Wait(NextAfter(sends[..j]), sends[j].at) == 0
  }

  /** What is sent from packet i until packet j takes no longer than the time between them
      and the granularity. */
  ghost predicate Conforms(sends: seq<Send>, i: nat, j: nat)
    requires i < j < |sends|
  {
    Load(sends[..j], i) <= sends[j].at - sends[i].at + ALARM_GRANULARITY
  }

  ghost predicate ConformsFromStart(sends: seq<Send>, j: nat)
    requires j < |sends|
  {
    Load(sends[..j], 0) <= sends[j].at + ALARM_GRANULARITY
  }

  /** Every window that ends with packet j conforms. */
  ghost predicate AllConform(sends: seq<Send>, j: nat)
    requires j < |sends|
  {
    ConformsFromStart(sends, j) && forall i :: 0 <= i < j ==> Conforms(sends, i, j)
  }

  /** A run is paced exactly when every window in it conforms. */
  lemma PacedIffConforms(sends: seq<Send>)
    ensures Paced(sends) <==> forall j :: 0 <= j < |sends| ==> AllConform(sends, j)
  {
    forall j | 0 <= j < |sends| ensures PacedAt(sends, j) <==> AllConform(sends, j) {
      PacedAtIff(sends, j);
    }
  }

  lemma PacedAtIff(sends: seq<Send>, j: nat)
    requires j < |sends|
    ensures PacedAt(sends, j) <==> AllConform(sends, j)
  {
    var front, end := sends[..j], sends[j].at + ALARM_GRANULARITY;
    NextIsLatestWindow(front, end);
    if WindowsEndBy(front, end) {
      forall i | 0 <= i < j ensures Conforms(sends, i, j) {
        assert front[i].at + Load(front, i) <= end;
      }
    }
    if AllConform(sends, j) {
      forall i | 0 <= i < |front| ensures front[i].at + Load(front, i) <= end {
        assert Conforms(sends, i, j);
      }
    }
  }

  /** Waiting as long as the pacer asks is enough, and nothing shorter by more than the granularity is. */
  lemma WaitIsEnough(next: nat, now: nat, waited: nat)
    ensures waited >= Wait(next, now) ==> Wait(next, now + waited) == 0
    ensures waited + ALARM_GRANULARITY < Wait(next, now) ==> Wait(next, now + waited) > 0
  {
  }

  class IdealPacingSender {
    var idealNextPacketSendTime: nat
    /** All packets sent so far. */
    ghost var sends: seq<Send>

    ghost predicate Valid()
      reads this
    {
      idealNextPacketSendTime == NextAfter(sends)
    }

    constructor ()
      ensures Valid() && sends == []
    {
      idealNextPacketSendTime, sends := 0, [];
    }

    method OnPacketSent(now: nat, delay: nat)
      requires Valid()
      modifies this
      ensures Valid() && sends == old(sends) + [Send(now, delay)]
    {
      idealNextPacketSendTime := Max(idealNextPacketSendTime + delay, now + delay);
      sends := sends + [Send(now, delay)];
      assert sends[..|sends| - 1] == old(sends);
    }

    method TimeUntilSend(now: nat) returns (delta: nat)
      requires Valid()
      ensures delta == Wait(NextAfter(sends), now)
      ensures if NextAfter(sends) <= now + 1000 then delta == 0 else now + delta == NextAfter(sends)
    {
      if idealNextPacketSendTime > now + ALARM_GRANULARITY {
        delta := idealNextPacketSendTime - now;
      } else {
        delta := 0;
      }
    }

    /** Sends when the pacer allows it; a run that is paced stays paced. */
    method SendIfAllowed(now: nat, delay: nat) returns (sent: bool)
      requires Valid() && Paced(sends)
      modifies this
      ensures Valid() && Paced(sends)
      ensures sends == if sent then old(sends) + [Send(now, delay)] else old(sends)
      ensures sent <==> Wait(NextAfter(old(sends)), now) == 0
    {
      var delta := TimeUntilSend(now);
      sent := delta == 0;
      if sent {
        ghost var before := sends;
        OnPacketSent(now, delay);
        forall j | 0 <= j < |sends| ensures PacedAt(sends, j) {
          assert sends[..j] == before[..j];
          assert before[..|before|] == before;
          if j < |before| {
            assert PacedAt(before, j);
          }
        }
      }
    }
  }
}
