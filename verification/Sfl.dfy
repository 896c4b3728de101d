/** Water-filling scheduler: a water level is raised until the paths together
    hold the frame, then packets are poured into the paths in delay order. */
module Sfl {
  import opened Arithmetic
  import opened Ordered
  import opened Schedule
  import opened Sequences

  /** One row of the delay/water table: `bytes` is the water the row may take. */
  datatype PathWater = PathWater(pid: nat, owd: nat, bps: nat, bytes: int)

  ghost predicate Sorted(rows: seq<PathWater>) {
    forall j, k :: 0 <= j <= k < |rows| ==> rows[j].owd <= rows[k].owd
  }

  ghost predicate DistinctPids(rows: seq<PathWater>) {
    forall j, k :: 0 <= j < k < |rows| ==> rows[j].pid != rows[k].pid
  }

  /** The bytes a path delivers between its own delay and the water level. */
  function Water(row: PathWater, level: nat): int {
    (level - row.owd) * row.bps / 8000
  }

  /** The water is what the path delivers in the time left of the level, but for a fraction of a byte. */
  lemma WaterIsDelivered(row: PathWater, level: nat)
    requires row.owd <= level
    ensures 8000 * Water(row, level) <= (level - row.owd) * row.bps < 8000 * (Water(row, level) + 1)
  {
  }

  function Fill(row: PathWater, level: nat): PathWater {
    row.(bytes := Water(row, level))
  }

  ghost predicate FilledTo(after: seq<PathWater>, before: seq<PathWater>, level: nat) {
    && |after| == |before|
    && forall j :: 0 <= j < |before| ==> after[j] == Fill(before[j], level)
  }

  ghost function WaterUpTo(rows: seq<PathWater>, level: nat, n: nat): int
    requires n <= |rows|
  {
    if n == 0 then 0 else WaterUpTo(rows, level, n - 1) + Water(rows[n - 1], level)
  }

  ghost function TotalWater(rows: seq<PathWater>, level: nat): int {
    WaterUpTo(rows, level, |rows|)
  }

  ghost function Last(rows: seq<PathWater>): PathWater
    requires rows != []
  {
    rows[|rows| - 1]
  }

  /** The level after i steps. */
  ghost function Level(rows: seq<PathWater>, step: nat, i: nat): nat
    requires rows != []
  {
    Last(rows).owd + step * i
  }

  ghost predicate HoldsAt(rows: seq<PathWater>, filling: nat, step: nat, i: nat)
    requires rows != []
  {
    TotalWater(rows, Level(rows, step, i)) >= filling
  }

  /** Some number of steps raises the level enough: exactly when the search ends. */
  ghost predicate SearchEnds(rows: seq<PathWater>, filling: nat, step: nat)
    requires rows != []
  {
    exists i :: HoldsAt(rows, filling, step, i)
  }

  ghost predicate NoneHoldsBefore(rows: seq<PathWater>, filling: nat, step: nat, i: nat)
    requires rows != []
  {
    forall j: nat :: j < i ==> !HoldsAt(rows, filling, step, j)
  }

  ghost predicate IsLeastStep(rows: seq<PathWater>, filling: nat, step: nat, i: nat)
    requires rows != []
  {
    HoldsAt(rows, filling, step, i) && NoneHoldsBefore(rows, filling, step, i)
  }

  class WaterTable {
    var rows: seq<PathWater>

    constructor (rows: seq<PathWater>)
      ensures this.rows == rows
    {
      this.rows := rows;
    }

    /** Fills every row to the level that is `compensate` above the slowest path. */
    method GetTotalWater(compensate: nat) returns (water: int)
      requires rows != [] && Sorted(rows)
      modifies this
      ensures FilledTo(rows, old(rows), Last(old(rows)).owd + compensate)
      ensures water == TotalWater(old(rows), Last(old(rows)).owd + compensate)
      ensures forall j :: 0 <= j < |rows| ==> rows[j].bytes >= 0
    {
      water := 0;
      var depth := rows[|rows| - 1].owd + compensate;
      ghost var before := rows;
      for k := 0 to |rows|
        invariant |rows| == |before|
        invariant forall j :: 0 <= j < k ==> rows[j] == Fill(before[j], depth) && rows[j].bytes >= 0
        invariant forall j :: k <= j < |rows| ==> rows[j] == before[j]
        invariant water == WaterUpTo(before, depth, k)
      {
        var temp := (depth - rows[k].owd) * rows[k].bps / (8 * 1000);
        WaterNatural(rows[k], depth);
        rows := rows[k := rows[k].(bytes := temp)];
        water := water + temp;
      }
    }

    /** Raises the level step by step; stops at the least that holds `filling`. */
    method AllocateWater(filling: nat, step: nat) returns (ghost steps: nat)
      requires rows != [] && Sorted(rows) && SearchEnds(rows, filling, step)
      modifies this
      ensures IsLeastStep(old(rows), filling, step, steps)
      ensures FilledTo(rows, old(rows), Level(old(rows), step, steps))
    {
      ghost var before := rows;
      ghost var enough :| HoldsAt(before, filling, step, enough);
      var i := 0;
      while true
        invariant rows != [] && Sorted(rows) && SameButBytes(rows, before)
        invariant NoneHoldsBefore(before, filling, step, i)
        decreases enough - i
      {
        ghost var now := rows;
        var compensate := step * i;
        var water := GetTotalWater(compensate);
        ghost var level := Last(now).owd + compensate;
        RefillSame(rows, now, before, level);
        assert level == Level(before, step, i);
        if water >= filling {
          return i;
        }
        i := i + 1;
      }
    }
  }

  lemma WaterNatural(row: PathWater, level: nat)
    requires row.owd <= level
    ensures Water(row, level) >= 0
  {
    assert (level - row.owd) * row.bps >= 0;
  }

  ghost predicate SameButBytes(a: seq<PathWater>, b: seq<PathWater>) {
    && |a| == |b|
    && forall j :: 0 <= j < |a| ==> a[j].(bytes := 0) == b[j].(bytes := 0)
  }

  lemma {:induction false} WaterIgnoresBytes(a: seq<PathWater>, b: seq<PathWater>, level: nat, n: nat)
    requires SameButBytes(a, b) && n <= |a|
    ensures WaterUpTo(a, level, n) == WaterUpTo(b, level, n)
  {
    if n > 0 {
      WaterIgnoresBytes(a, b, level, n - 1);
      assert a[n - 1].(bytes := 0) == b[n - 1].(bytes := 0);
    }
  }

  /** Filling rows that were filled before is filling the original rows. */
  lemma RefillSame(after: seq<PathWater>, now: seq<PathWater>, before: seq<PathWater>, level: nat)
    requires SameButBytes(now, before) && FilledTo(after, now, level)
    ensures FilledTo(after, before, level) && SameButBytes(after, before)
    ensures TotalWater(now, level) == TotalWater(before, level)
    ensures Sorted(now) ==> Sorted(after)
  {
    WaterIgnoresBytes(now, before, level, |now|);
    forall j | 0 <= j < |before|
      ensures after[j] == Fill(before[j], level) && after[j].(bytes := 0) == before[j].(bytes := 0)
      ensures after[j].owd == now[j].owd
    {
      assert now[j].(bytes := 0) == before[j].(bytes := 0);
      assert after[j] == Fill(now[j], level);
    }
  }

  // ---- the search for the level ----

  lemma {:induction false} OthersNatural(rows: seq<PathWater>, level: nat, n: nat)
    requires n <= |rows| && forall j :: 0 <= j < n ==> rows[j].owd <= level
    ensures WaterUpTo(rows, level, n) >= 0
  {
    if n > 0 {
      OthersNatural(rows, level, n - 1);
      WaterNatural(rows[n - 1], level);
    }
  }

  lemma LastAlone(rows: seq<PathWater>, filling: nat, step: nat)
    requires rows != [] && Sorted(rows) && Last(rows).bps > 0 && step > 0
    ensures HoldsAt(rows, filling, step, 8000 * filling)
  {
    var level := Level(rows, step, 8000 * filling);
    Raised(step, 8000 * filling, Last(rows).bps);
    assert Water(Last(rows), level) >= filling;
    OthersNatural(rows, level, |rows| - 1);
  }

  lemma Raised(step: nat, i: nat, bps: nat)
    requires step > 0 && bps > 0
    ensures step * i >= i
    ensures step * i * bps / 8000 >= i / 8000
  {
    assert step * i >= i;
    assert step * i * bps >= step * i;
  }

  /** The search ends exactly when a step raises the level at all, or none is needed. */
  lemma SearchEndsIff(rows: seq<PathWater>, filling: nat, step: nat)
    requires rows != [] && Sorted(rows) && Last(rows).bps > 0
    ensures SearchEnds(rows, filling, step) <==> step > 0 || HoldsAt(rows, filling, step, 0)
  {
    if step > 0 {
      LastAlone(rows, filling, step);
    } else if SearchEnds(rows, filling, step) {
      var i :| HoldsAt(rows, filling, step, i);
      assert Level(rows, 0, i) == Level(rows, 0, 0);
    }
  }

  /** The inflow of one step, with the rounding of each row. */
  ghost function Inflow(rows: seq<PathWater>, step: nat, n: nat): nat
    requires n <= |rows|
  {
    if n == 0 then 0 else Inflow(rows, step, n - 1) + step * rows[n - 1].bps / 8000 + 1
  }

  lemma {:induction false} OneStepUp(rows: seq<PathWater>, level: nat, step: nat, n: nat)
    requires n <= |rows|
    ensures WaterUpTo(rows, level + step, n) <= WaterUpTo(rows, level, n) + Inflow(rows, step, n)
  {
    if n > 0 {
      OneStepUp(rows, level, step, n - 1);
      var row := rows[n - 1];
      assert (level + step - row.owd) * row.bps == (level - row.owd) * row.bps + step * row.bps;
    }
  }

  /** The level found overshoots by less than the inflow of its last step, and is
      not more than one step above where the slowest path alone holds the frame. */
  lemma LeastStepIsTight(rows: seq<PathWater>, filling: nat, step: nat, i: nat)
    requires rows != [] && Sorted(rows) && i > 0 && IsLeastStep(rows, filling, step, i)
    ensures TotalWater(rows, Level(rows, step, i)) < filling + Inflow(rows, step, |rows|)
    ensures step * (i - 1) * Last(rows).bps < 8000 * filling
  {
    assert !HoldsAt(rows, filling, step, i - 1);
    var level := Level(rows, step, i - 1);
    assert step * i == step * (i - 1) + step;
    OneStepUp(rows, level, step, |rows|);
    OthersNatural(rows, level, |rows| - 1);
    assert Water(Last(rows), level) < filling;
  }

  /** The step of the program: the time the slowest path needs for the first packet. */
  function StepFor(len: nat, bps: nat): nat
    requires bps > 0
  {
    len * 8 * 1000 / bps
  }

  /** In one step the path sends no more than the packet, and in a millisecond longer it sends more. */
  lemma StepIsFirstPacket(len: nat, bps: nat)
    requires bps > 0
    ensures StepFor(len, bps) * bps <= 8000 * len < (StepFor(len, bps) + 1) * bps
  {
    var bits := len * 8 * 1000;
    assert bits == bits / bps * bps + bits % bps;
  }

  lemma StepPositiveIff(len: nat, bps: nat)
    requires bps > 0
    ensures StepFor(len, bps) > 0 <==> bps <= 8000 * len
  {
    QuotientPositive(len * 8 * 1000, bps);
  }

  /** Two equally distant 10 Mbit/s paths and packets of 1030 bytes: the step is
      zero, no water fits at level zero, and the search goes on forever. */
  lemma FastPathsNeverFill(owd: nat, filling: nat)
    requires filling > 0
    ensures var rows := [PathWater(1, owd, 10_000_000, 0), PathWater(2, owd, 10_000_000, 0)];
            StepFor(1030, 10_000_000) == 0 && !SearchEnds(rows, filling, StepFor(1030, 10_000_000))
  {
    var rows := [PathWater(1, owd, 10_000_000, 0), PathWater(2, owd, 10_000_000, 0)];
    SearchEndsIff(rows, filling, 0);
    assert WaterUpTo(rows, owd, 1) == 0;
    assert Level(rows, 0, 0) == owd;
    assert TotalWater(rows, owd) == WaterUpTo(rows, owd, 1) + 0;
  }

  // ---- pouring the packets ----

  ghost function LoadUpTo(calls: seq<Assignment>, packets: map<nat, nat>, pid: nat, n: nat): nat
    requires n <= |calls|
  {
    if n == 0 then 0
    else LoadUpTo(calls, packets, pid, n - 1) + if calls[n - 1].pid == pid then Len(packets, calls[n - 1].packet) else 0
  }

  /** The bytes that a path was given. */
  ghost function Load(calls: seq<Assignment>, packets: map<nat, nat>, pid: nat): nat {
    LoadUpTo(calls, packets, pid, |calls|)
  }

  lemma {:induction false} LoadPrefix(calls: seq<Assignment>, more: seq<Assignment>, packets: map<nat, nat>,
                                      pid: nat, n: nat)
    requires n <= |calls|
    ensures LoadUpTo(calls + more, packets, pid, n) == LoadUpTo(calls, packets, pid, n)
  {
    if n > 0 {
      LoadPrefix(calls, more, packets, pid, n - 1);
    }
  }

  lemma LoadAppend(calls: seq<Assignment>, call: Assignment, packets: map<nat, nat>, pid: nat)
    ensures Load(calls + [call], packets, pid)
            == Load(calls, packets, pid) + if call.pid == pid then Len(packets, call.packet) else 0
  {
    LoadPrefix(calls, [call], packets, pid, |calls|);
  }

  /** The length of the last packet that a path was given. */
  ghost function LastLen(calls: seq<Assignment>, packets: map<nat, nat>, pid: nat): nat {
    if calls == [] then 0
    else
      var call := calls[|calls| - 1];
      if call.pid == pid then Len(packets, call.packet) else LastLen(calls[..|calls| - 1], packets, pid)
  }

  /** A row never takes a packet once its water is used up: it exceeds it by less than its last packet. */
  ghost predicate NotOverfull(row: PathWater, load: nat, last: nat) {
    load == 0 || load < row.bytes + last
  }

  /** Rows before the front are used up, the front row has `left` bytes to take,
      and the rows behind it have not been used. */
  ghost predicate Poured(calls: seq<Assignment>, packets: map<nat, nat>, table: seq<PathWater>, front: nat, left: int)
    requires front < |table|
  {
    && (forall j :: 0 <= j < front ==>
          Load(calls, packets, table[j].pid) >= table[j].bytes
          && NotOverfull(table[j], Load(calls, packets, table[j].pid), LastLen(calls, packets, table[j].pid)))
    && (front < |table| - 1 ==>
          left == table[front].bytes - Load(calls, packets, table[front].pid)
          && NotOverfull(table[front], Load(calls, packets, table[front].pid),
                         LastLen(calls, packets, table[front].pid)))
    && (forall j :: front < j < |table| ==> Load(calls, packets, table[j].pid) == 0)
  }

  /** What is left of the table. */
  ghost predicate FrontAt(rows: seq<PathWater>, table: seq<PathWater>, front: nat, left: int) {
    && front < |table| && |rows| == |table| - front
    && rows[0] == table[front].(bytes := left)
    && forall j :: 1 <= j < |rows| ==> rows[j] == table[front + j]
  }

  /** The t-th call goes to table row route[t], and rows are used in table order. */
  ghost predicate RoutedTo(calls: seq<Assignment>, table: seq<PathWater>, route: seq<nat>, front: nat) {
    && |route| == |calls|
    && (forall t :: 0 <= t < |calls| ==>
          route[t] <= front && route[t] < |table| && calls[t].pid == table[route[t]].pid)
    && forall t, u :: 0 <= t <= u < |calls| ==> route[t] <= route[u]
  }

  lemma PourFront(calls: seq<Assignment>, packets: map<nat, nat>, table: seq<PathWater>, front: nat, left: int, id: nat)
    requires DistinctPids(table) && front < |table| && id in packets
    requires Poured(calls, packets, table, front, left)
    requires front < |table| - 1 ==> left > 0
    ensures Poured(calls + [Assignment(id, table[front].pid)], packets, table, front,
                   if front < |table| - 1 then left - packets[id] else left)
  {
    forall j | 0 <= j < |table|
      ensures Load(calls + [Assignment(id, table[front].pid)], packets, table[j].pid)
              == Load(calls, packets, table[j].pid) + if j == front then packets[id] else 0
      ensures LastLen(calls + [Assignment(id, table[front].pid)], packets, table[j].pid)
              == if j == front then packets[id] else LastLen(calls, packets, table[j].pid)
    {
      LoadAppend(calls, Assignment(id, table[front].pid), packets, table[j].pid);
    }
  }

  lemma FrontUsed(rows: seq<PathWater>, table: seq<PathWater>, front: nat, left: int, remain: int)
    requires FrontAt(rows, table, front, left)
    ensures FrontAt(rows[0 := rows[0].(bytes := remain)], table, front, remain)
  {
  }

  lemma FrontLeft(rows: seq<PathWater>, table: seq<PathWater>, front: nat, left: int)
    requires FrontAt(rows, table, front, left) && front + 1 < |table|
    ensures FrontAt(rows[1..], table, front + 1, table[front + 1].bytes)
  {
  }

  /** k packets have been poured. */
  ghost predicate PouredSoFar(calls: seq<Assignment>, packets: map<nat, nat>, table: seq<PathWater>, route: seq<nat>,
                              front: nat, left: int, keys: seq<nat>, k: nat)
  {
    && front < |table| && k <= |keys|
    && Poured(calls, packets, table, front, left)
    && RoutedTo(calls, table, route, front)
    && PacketIds(calls) == keys[..k]
  }

  lemma GiveFront(calls: seq<Assignment>, packets: map<nat, nat>, table: seq<PathWater>, route: seq<nat>, front: nat,
                  left: int, keys: seq<nat>, k: nat)
    requires DistinctPids(table) && k < |keys| && keys[k] in packets
    requires PouredSoFar(calls, packets, table, route, front, left, keys, k)
    requires front < |table| - 1 ==> left > 0
    ensures PouredSoFar(calls + [Assignment(keys[k], table[front].pid)], packets, table, route + [front], front,
                        if front < |table| - 1 then left - packets[keys[k]] else left, keys, k + 1)
  {
    PourFront(calls, packets, table, front, left, keys[k]);
  }

  lemma LeaveFront(calls: seq<Assignment>, packets: map<nat, nat>, table: seq<PathWater>, route: seq<nat>, front: nat,
                   left: int, keys: seq<nat>, k: nat)
    requires front + 1 < |table| && left <= 0 && PouredSoFar(calls, packets, table, route, front, left, keys, k)
    ensures PouredSoFar(calls, packets, table, route, front + 1, table[front + 1].bytes, keys, k)
  {
  }

  method Pour(packets: map<nat, nat>, keys: seq<nat>, table: WaterTable)
    returns (calls: seq<Assignment>, ghost route: seq<nat>, ghost front: nat)
    requires table.rows != [] && DistinctPids(table.rows)
    requires forall id :: id in keys ==> id in packets
    modifies table
    ensures PacketIds(calls) == keys
    ensures front < |old(table.rows)| && RoutedTo(calls, old(table.rows), route, front)
    ensures exists left :: Poured(calls, packets, old(table.rows), front, left)
  {
    calls, route, front := [], [], 0;
    ghost var all := table.rows;
    ghost var left := all[0].bytes;
    for k := 0 to |keys|
      invariant FrontAt(table.rows, all, front, left)
      invariant PouredSoFar(calls, packets, all, route, front, left, keys, k)
    {
      var it := keys[k];
      while table.rows != []
        invariant FrontAt(table.rows, all, front, left)
        invariant PouredSoFar(calls, packets, all, route, front, left, keys, k)
        decreases |table.rows|
      {
        var water := table.rows[0];
        if |table.rows| == 1 {
          GiveFront(calls, packets, all, route, front, left, keys, k);
          calls := calls + [Assignment(it, water.pid)];
          route := route + [front];
          break;
        } else {
          var last := water.bytes;
          if last > 0 {
            GiveFront(calls, packets, all, route, front, left, keys, k);
            calls := calls + [Assignment(it, water.pid)];
            route := route + [front];
            // The remainder is compared, unsigned, with zero: it is always kept.
            var remain := last - packets[it];
            FrontUsed(table.rows, all, front, left, remain);
            left := remain;
            table.rows := table.rows[0 := water.(bytes := remain)];
            break;
          } else {
            LeaveFront(calls, packets, all, route, front, left, keys, k);
            FrontLeft(table.rows, all, front, left);
            front := front + 1;
            left := all[front].bytes;
            table.rows := table.rows[1..];
          }
        }
      }
    }
    TakeAll(keys);
  }

  // ---- water and load together ----

  ghost function BytesUpTo(table: seq<PathWater>, n: nat): int
    requires n <= |table|
  {
    if n == 0 then 0 else BytesUpTo(table, n - 1) + table[n - 1].bytes
  }

  lemma {:induction false} FilledBytes(table: seq<PathWater>, rows: seq<PathWater>, level: nat, n: nat)
    requires FilledTo(table, rows, level) && n <= |rows|
    ensures BytesUpTo(table, n) == WaterUpTo(rows, level, n)
  {
    if n > 0 {
      FilledBytes(table, rows, level, n - 1);
    }
  }

  /** The load of the first m rows after n calls. */
  ghost function RowLoads(calls: seq<Assignment>, packets: map<nat, nat>, table: seq<PathWater>, m: nat, n: nat): nat
    requires m <= |table| && n <= |calls|
  {
    if m == 0 then 0
    else RowLoads(calls, packets, table, m - 1, n) + LoadUpTo(calls, packets, table[m - 1].pid, n)
  }

  lemma {:induction false} RowLoadsStep(calls: seq<Assignment>, packets: map<nat, nat>, table: seq<PathWater>,
                                        m: nat, n: nat, row: nat)
    requires DistinctPids(table) && m <= |table| && 0 < n <= |calls|
    requires row < |table| && calls[n - 1].pid == table[row].pid
    ensures RowLoads(calls, packets, table, m, n)
            == RowLoads(calls, packets, table, m, n - 1) + if row < m then Len(packets, calls[n - 1].packet) else 0
  {
    if m > 0 {
      RowLoadsStep(calls, packets, table, m - 1, n, row);
      assert table[m - 1].pid == calls[n - 1].pid <==> m - 1 == row;
    }
  }

  /** No byte is lost: the rows together carry all the packets. */
  lemma {:induction false} RowsCarryAll(calls: seq<Assignment>, packets: map<nat, nat>, table: seq<PathWater>,
                                        route: seq<nat>, front: nat, n: nat)
    requires DistinctPids(table) && RoutedTo(calls, table, route, front) && n <= |calls|
    ensures RowLoads(calls, packets, table, |table|, n) == LenUpTo(PacketIds(calls), packets, n)
  {
    if n == 0 {
      NoLoadYet(calls, packets, table, |table|);
    } else {
      RowsCarryAll(calls, packets, table, route, front, n - 1);
      RowLoadsStep(calls, packets, table, |table|, n, route[n - 1]);
    }
  }

  lemma {:induction false} NoLoadYet(calls: seq<Assignment>, packets: map<nat, nat>, table: seq<PathWater>, m: nat)
    requires m <= |table|
    ensures RowLoads(calls, packets, table, m, 0) == 0
  {
    if m > 0 {
      NoLoadYet(calls, packets, table, m - 1);
    }
  }

  lemma {:induction false} UsedUpRows(calls: seq<Assignment>, packets: map<nat, nat>, table: seq<PathWater>, m: nat)
    requires m <= |table|
    requires forall j :: 0 <= j < m ==> Load(calls, packets, table[j].pid) >= table[j].bytes
    ensures RowLoads(calls, packets, table, m, |calls|) >= BytesUpTo(table, m)
  {
    if m > 0 {
      UsedUpRows(calls, packets, table, m - 1);
    }
  }

  /** What the water says about the loads: a path is used only when every faster
      one is used up, and no path but the last gets more than its water and its last
      packet less a byte. */
  ghost predicate WithinWater(calls: seq<Assignment>, packets: map<nat, nat>, table: seq<PathWater>) {
    && (forall j, k :: 0 <= j < k < |table| && Load(calls, packets, table[k].pid) > 0 ==>
          Load(calls, packets, table[j].pid) >= table[j].bytes)
    && (forall j :: 0 <= j < |table| - 1 ==>
          NotOverfull(table[j], Load(calls, packets, table[j].pid), LastLen(calls, packets, table[j].pid)))
  }

  /** A row that is left is used up by its last packet, and not before. */
  lemma PouredWithinWater(calls: seq<Assignment>, packets: map<nat, nat>, table: seq<PathWater>, front: nat, left: int)
    requires front < |table| && Poured(calls, packets, table, front, left)
    requires forall j :: 0 <= j < |table| ==> table[j].bytes >= 0
    ensures WithinWater(calls, packets, table)
  {
    forall j, k | 0 <= j < k < |table| && Load(calls, packets, table[k].pid) > 0
      ensures Load(calls, packets, table[j].pid) >= table[j].bytes
    {
      assert k <= front;
    }
    forall j | 0 <= j < |table| - 1
      ensures NotOverfull(table[j], Load(calls, packets, table[j].pid), LastLen(calls, packets, table[j].pid))
    {
    }
  }

  lemma FrontIsLast(calls: seq<Assignment>, packets: map<nat, nat>, table: seq<PathWater>,
                    route: seq<nat>, left: int)
    requires table != [] && Poured(calls, packets, table, |table| - 1, left)
    requires DistinctPids(table) && RoutedTo(calls, table, route, |table| - 1)
    requires InOrder(PacketIds(calls), packets.Keys) && BytesUpTo(table, |table|) >= Sum(packets)
    ensures Load(calls, packets, Last(table).pid) <= Last(table).bytes
  {
    RowsCarryAll(calls, packets, table, route, |table| - 1, |calls|);
    LensAddUp(PacketIds(calls), packets);
    UsedUpRows(calls, packets, table, |table| - 1);
  }

  lemma LastWithinWater(calls: seq<Assignment>, packets: map<nat, nat>, table: seq<PathWater>,
                        route: seq<nat>, front: nat, left: int)
    requires front < |table| && Poured(calls, packets, table, front, left)
    requires DistinctPids(table) && RoutedTo(calls, table, route, front)
    requires InOrder(PacketIds(calls), packets.Keys)
    requires forall j :: 0 <= j < |table| ==> table[j].bytes >= 0
    requires BytesUpTo(table, |table|) >= Sum(packets)
    ensures Load(calls, packets, Last(table).pid) <= Last(table).bytes
  {
    if front == |table| - 1 {
      FrontIsLast(calls, packets, table, route, left);
    } else {
      assert Load(calls, packets, table[|table| - 1].pid) == 0;
    }
  }

  /** In time instead of bytes: a path with `load` bytes is done not later than
      the level, but for `slack` bytes. */
  ghost predicate DoneByLevel(row: PathWater, level: nat, load: nat, slack: int) {
    8000 * load <= (level - row.owd) * row.bps + 8000 * slack
  }

  lemma WaterIsTime(row: PathWater, level: nat, load: nat, slack: int)
    requires load <= Water(row, level) + slack
    ensures DoneByLevel(row, level, load, slack)
  {
    var a := (level - row.owd) * row.bps;
    assert 8000 * (a / 8000) <= a;
  }

  // ---- the scheduler ----

  /** `table` is what sorting by delay may leave of the paths that have a rate. */
  ghost predicate IsArrangement(table: seq<PathWater>, pids: seq<nat>, paths: map<nat, PathInfo>) {
    && Sorted(table) && DistinctPids(table)
    && (forall row :: row in table ==> row.pid in pids && IsRowOf(row, paths))
    && forall pid :: pid in pids && pid in paths && paths[pid].instantRate > 0 ==> HasPid(table, pid)
  }

  ghost predicate IsRowOf(row: PathWater, paths: map<nat, PathInfo>) {
    && row.pid in paths
    && row == PathWater(row.pid, paths[row.pid].rtt / 2, paths[row.pid].instantRate, 0)
    && row.bps > 0
  }

  ghost predicate HasPid(table: seq<PathWater>, pid: nat) {
    exists j :: 0 <= j < |table| && table[j].pid == pid
  }

  function InsertByOwd(row: PathWater, rows: seq<PathWater>): seq<PathWater> {
    if rows == [] || row.owd <= rows[0].owd then [row] + rows
    else [rows[0]] + InsertByOwd(row, rows[1..])
  }

  lemma {:induction false} InsertKeeps(row: PathWater, rows: seq<PathWater>)
    ensures forall x :: x in InsertByOwd(row, rows) <==> x == row || x in rows
  {
    if rows != [] && row.owd > rows[0].owd {
      InsertKeeps(row, rows[1..]);
      assert rows == [rows[0]] + rows[1..];
    }
  }

  lemma {:induction false} InsertSorts(row: PathWater, rows: seq<PathWater>)
    requires Sorted(rows)
    ensures Sorted(InsertByOwd(row, rows))
  {
    if rows != [] && row.owd > rows[0].owd {
      var tail := InsertByOwd(row, rows[1..]);
      InsertSorts(row, rows[1..]);
      InsertKeeps(row, rows[1..]);
      forall j | 0 <= j < |tail|
        ensures rows[0].owd <= tail[j].owd
      {
        assert tail[j] in tail;
      }
    }
  }

  lemma {:induction false} InsertDistinct(row: PathWater, rows: seq<PathWater>)
    requires DistinctPids(rows) && !HasPid(rows, row.pid)
    ensures DistinctPids(InsertByOwd(row, rows))
  {
    if rows != [] && row.owd > rows[0].owd {
      var tail := InsertByOwd(row, rows[1..]);
      assert forall j :: 0 <= j < |rows[1..]| ==> rows[1..][j] == rows[j + 1];
      InsertDistinct(row, rows[1..]);
      InsertKeeps(row, rows[1..]);
      forall j | 0 <= j < |tail|
        ensures rows[0].pid != tail[j].pid
      {
        assert tail[j] in tail;
      }
    }
  }

  lemma HasInserted(row: PathWater, rows: seq<PathWater>, pid: nat)
    ensures HasPid(InsertByOwd(row, rows), pid) <==> row.pid == pid || HasPid(rows, pid)
  {
    var all := InsertByOwd(row, rows);
    InsertKeeps(row, rows);
    if row.pid == pid {
      assert row in all;
    }
    if HasPid(rows, pid) {
      var j :| 0 <= j < |rows| && rows[j].pid == pid;
      assert rows[j] in all;
    }
    if HasPid(all, pid) {
      var j :| 0 <= j < |all| && all[j].pid == pid;
      assert all[j] in all;
    }
  }

  lemma ArrangeMore(table: seq<PathWater>, row: PathWater, pids: seq<nat>, paths: map<nat, PathInfo>, k: nat)
    requires k < |pids| && Distinct(pids) && IsArrangement(table, pids[..k], paths)
    requires row.pid == pids[k] && IsRowOf(row, paths)
    ensures IsArrangement(InsertByOwd(row, table), pids[..k + 1], paths)
  {
    InsertKeeps(row, table);
    InsertSorts(row, table);
    forall j | 0 <= j < |table|
      ensures table[j].pid != row.pid
    {
      assert table[j] in table;
    }
    InsertDistinct(row, table);
    forall pid | pid in pids[..k + 1] && pid in paths && paths[pid].instantRate > 0
      ensures HasPid(InsertByOwd(row, table), pid)
    {
      HasInserted(row, table, pid);
    }
  }

  lemma ArrangeSkip(table: seq<PathWater>, pids: seq<nat>, paths: map<nat, PathInfo>, k: nat)
    requires k < |pids| && IsArrangement(table, pids[..k], paths)
    requires pids[k] in paths && paths[pids[k]].instantRate == 0
    ensures IsArrangement(table, pids[..k + 1], paths)
  {
  }

  // ---- when the search for the level ends ----

  ghost predicate Rated(pids: seq<nat>, paths: map<nat, PathInfo>, pid: nat) {
    pid in pids && pid in paths && paths[pid].instantRate > 0
  }

  ghost predicate SomeRated(pids: seq<nat>, paths: map<nat, PathInfo>) {
    exists pid :: Rated(pids, paths, pid)
  }

  /** The search for the level ends, whichever way sorting leaves equal delays. */
  ghost predicate LevelExists(pids: seq<nat>, packets: map<nat, nat>, paths: map<nat, PathInfo>, size: nat)
    requires packets != map[]
  {
    && SomeRated(pids, paths)
    && forall table :: table != [] && IsArrangement(table, pids, paths) && Last(table).bps > 0 ==>
         SearchEnds(table, size, StepFor(packets[Least(packets.Keys)], Last(table).bps))
  }

  /** Of the paths with a rate, one that none is farther than. */
  ghost predicate Farthest(pids: seq<nat>, paths: map<nat, PathInfo>, pid: nat) {
    && Rated(pids, paths, pid)
    && forall other :: Rated(pids, paths, other) ==> paths[other].rtt / 2 <= paths[pid].rtt / 2
  }

  /** No farthest path is through with the frame's first packet in less than a millisecond. */
  ghost predicate FarthestAreSlow(pids: seq<nat>, packets: map<nat, nat>, paths: map<nat, PathInfo>)
    requires packets != map[]
  {
    forall pid :: Farthest(pids, paths, pid) ==> paths[pid].instantRate <= 8000 * packets[Least(packets.Keys)]
  }

  function RowOf(paths: map<nat, PathInfo>, pid: nat): PathWater
    requires pid in paths
  {
    PathWater(pid, paths[pid].rtt / 2, paths[pid].instantRate, 0)
  }

  lemma LastIsFarthest(table: seq<PathWater>, pids: seq<nat>, paths: map<nat, PathInfo>)
    requires table != [] && IsArrangement(table, pids, paths)
    ensures Farthest(pids, paths, Last(table).pid) && Last(table).bps == paths[Last(table).pid].instantRate
  {
    assert Last(table) in table;
    forall other | Rated(pids, paths, other) ensures paths[other].rtt / 2 <= Last(table).owd {
      assert HasPid(table, other);
      var j :| 0 <= j < |table| && table[j].pid == other;
      assert table[j] in table;
    }
  }

  lemma {:induction false} LastStays(row: PathWater, rows: seq<PathWater>)
    requires rows != [] && row.owd <= Last(rows).owd
    ensures InsertByOwd(row, rows) != [] && Last(InsertByOwd(row, rows)) == Last(rows)
  {
    if row.owd > rows[0].owd {
      LastStays(row, rows[1..]);
    }
  }

  /** Sorting may leave a farthest path last. */
  lemma {:induction false} ArrangeLast(pids: seq<nat>, paths: map<nat, PathInfo>,
                                       k: nat) returns (table: seq<PathWater>)
    requires Distinct(pids) && 1 <= k <= |pids| && forall pid :: pid in pids ==> pid in paths
    requires Farthest(pids, paths, pids[0])
    ensures IsArrangement(table, pids[..k], paths) && table != [] && Last(table) == RowOf(paths, pids[0])
  {
    if k == 1 {
      table := [RowOf(paths, pids[0])];
      assert table[0].pid == pids[0];
    } else {
      table := ArrangeLast(pids, paths, k - 1);
      var row := RowOf(paths, pids[k - 1]);
      if row.bps > 0 {
        assert Rated(pids, paths, pids[k - 1]);
        ArrangeMore(table, row, pids, paths, k - 1);
        LastStays(row, table);
        table := InsertByOwd(row, table);
      } else {
        ArrangeSkip(table, pids, paths, k - 1);
      }
    }
  }

  lemma MoveToFront(pids: seq<nat>, i: nat) returns (moved: seq<nat>)
    requires Distinct(pids) && i < |pids|
    ensures Distinct(moved) && moved != [] && moved[0] == pids[i]
    ensures forall pid :: pid in moved <==> pid in pids
  {
    moved := [pids[i]] + pids[..i] + pids[i + 1..];
    assert pids == pids[..i] + [pids[i]] + pids[i + 1..];
  }

  lemma ArrangedAnyway(pids: seq<nat>, paths: map<nat, PathInfo>, pid: nat) returns (table: seq<PathWater>)
    requires Distinct(pids) && Farthest(pids, paths, pid) && forall p :: p in pids ==> p in paths
    ensures IsArrangement(table, pids, paths) && table != [] && Last(table) == RowOf(paths, pid)
  {
    var i :| 0 <= i < |pids| && pids[i] == pid;
    var moved := MoveToFront(pids, i);
    assert forall p :: Rated(moved, paths, p) <==> Rated(pids, paths, p);
    table := ArrangeLast(moved, paths, |moved|);
    TakeAll(moved);
  }

  /** At step zero some frame is too long. */
  lemma NeverEnough(table: seq<PathWater>) returns (size: nat)
    requires table != [] && Sorted(table) && Last(table).bps > 0
    ensures !SearchEnds(table, size, 0)
  {
    var water := TotalWater(table, Level(table, 0, 0));
    size := if water < 0 then 0 else water + 1;
    SearchEndsIff(table, size, 0);
  }

  lemma SlowIfEnding(pids: seq<nat>, packets: map<nat, nat>, paths: map<nat, PathInfo>)
    requires packets != map[] && Distinct(pids) && forall pid :: pid in pids ==> pid in paths
    requires forall size :: LevelExists(pids, packets, paths, size)
    ensures FarthestAreSlow(pids, packets, paths)
  {
    var len := packets[Least(packets.Keys)];
    forall pid | Farthest(pids, paths, pid) ensures paths[pid].instantRate <= 8000 * len {
      var table := ArrangedAnyway(pids, paths, pid);
      StepPositiveIff(len, Last(table).bps);
      if StepFor(len, Last(table).bps) == 0 {
        var size := NeverEnough(table);
        assert !LevelExists(pids, packets, paths, size);
      }
    }
  }

  lemma EndsIfSlow(pids: seq<nat>, packets: map<nat, nat>, paths: map<nat, PathInfo>, size: nat)
    requires packets != map[] && SomeRated(pids, paths) && FarthestAreSlow(pids, packets, paths)
    ensures LevelExists(pids, packets, paths, size)
  {
    var len := packets[Least(packets.Keys)];
    forall table | table != [] && IsArrangement(table, pids, paths) && Last(table).bps > 0
      ensures SearchEnds(table, size, StepFor(len, Last(table).bps))
    {
      LastIsFarthest(table, pids, paths);
      StepPositiveIff(len, Last(table).bps);
      SearchEndsIff(table, size, StepFor(len, Last(table).bps));
    }
  }

  /** The search ends for frames of every size exactly when some path has a rate and the
      farthest of them need a millisecond or more for the first packet. */
  lemma LevelExistsIff(pids: seq<nat>, packets: map<nat, nat>, paths: map<nat, PathInfo>)
    requires packets != map[] && Distinct(pids) && forall pid :: pid in pids ==> pid in paths
    ensures (forall size :: LevelExists(pids, packets, paths, size))
            <==> SomeRated(pids, paths) && FarthestAreSlow(pids, packets, paths)
  {
    if SomeRated(pids, paths) && FarthestAreSlow(pids, packets, paths) {
      forall size ensures LevelExists(pids, packets, paths, size) {
        EndsIfSlow(pids, packets, paths, size);
      }
    }
    if forall size :: LevelExists(pids, packets, paths, size) {
      assert LevelExists(pids, packets, paths, 0);
      SlowIfEnding(pids, packets, paths);
    }
  }

  class SflSchedule {
    var pids: seq<nat>

    constructor ()
      ensures pids == []
    {
      pids := [];
    }

    /** The table of the paths that have a rate, fastest delay first. */
    method DelayTable(paths: map<nat, PathInfo>) returns (rows: seq<PathWater>)
      requires Distinct(pids) && forall pid :: pid in pids ==> pid in paths
      ensures IsArrangement(rows, pids, paths)
    {
      rows := [];
      for k := 0 to |pids|
        invariant IsArrangement(rows, pids[..k], paths)
      {
        var path := paths[pids[k]];
        if path.instantRate > 0 {
          var water := PathWater(pids[k], path.rtt / 2, path.instantRate, 0);
          ArrangeMore(rows, water, pids, paths, k);
          rows := InsertByOwd(water, rows);
        } else {
          ArrangeSkip(rows, pids, paths, k);
        }
      }
      TakeAll(pids);
    }

    /** `rows` is the sorted table, filled to the level that `steps` steps reach. */
    method IncomingPackets(packets: map<nat, nat>, paths: map<nat, PathInfo>, size: nat)
      returns (calls: seq<Assignment>, ghost rows: seq<PathWater>, ghost step: nat, ghost steps: nat)
      requires packets != map[] && pids != []
      requires Distinct(pids) && forall pid :: pid in pids ==> pid in paths
      requires |pids| == 1 || |packets| == 1 || LevelExists(pids, packets, paths, size)
      ensures EachPacketOnce(calls, packets)
      ensures |pids| == 1 || |packets| == 1 ==>
                forall t :: 0 <= t < |calls| ==> calls[t].pid == pids[t % |pids|]
      ensures |pids| != 1 && |packets| != 1 ==>
                && rows != [] && IsArrangement(rows, pids, paths) && Last(rows).bps > 0
                && step * Last(rows).bps <= 8000 * packets[Least(packets.Keys)] < (step + 1) * Last(rows).bps
                && IsLeastStep(rows, size, step, steps)
                && PouredTo(calls, packets, rows, Level(rows, step, steps), size)
    {
      rows, step, steps := [], 0, 0;
      if |pids| == 1 || |packets| == 1 {
        calls := RoundRobin(packets, pids);
        return;
      }
      var sorted := DelayTable(paths);
      SomeRow(sorted, pids, paths);
      rows := sorted;
      calls, step, steps := FillAndPour(packets, sorted, size);
    }
  }

  /** IncomingPackets from the sorted table on. */
  method FillAndPour(packets: map<nat, nat>, sorted: seq<PathWater>, size: nat)
    returns (calls: seq<Assignment>, ghost step: nat, ghost steps: nat)
    requires packets != map[] && sorted != [] && Sorted(sorted) && DistinctPids(sorted) && Last(sorted).bps > 0
    requires SearchEnds(sorted, size, StepFor(packets[Least(packets.Keys)], Last(sorted).bps))
    ensures EachPacketOnce(calls, packets)
    ensures step * Last(sorted).bps <= 8000 * packets[Least(packets.Keys)] < (step + 1) * Last(sorted).bps
    ensures IsLeastStep(sorted, size, step, steps) && PouredTo(calls, packets, sorted, Level(sorted, step, steps), size)
  {
    var it := Least(packets.Keys);
    var slowest := sorted[|sorted| - 1];
    var stepLen := StepFor(packets[it], slowest.bps);
    StepIsFirstPacket(packets[it], slowest.bps);
    step := stepLen;
    calls, steps := PourToLevel(packets, sorted, size, stepLen);
  }

  /** Fills the table to the level and pours the packets out of it. */
  method PourToLevel(packets: map<nat, nat>, sorted: seq<PathWater>, size: nat, step: nat)
    returns (calls: seq<Assignment>, ghost steps: nat)
    requires packets != map[] && sorted != [] && Sorted(sorted) && DistinctPids(sorted)
    requires SearchEnds(sorted, size, step)
    ensures EachPacketOnce(calls, packets)
    ensures IsLeastStep(sorted, size, step, steps) && PouredTo(calls, packets, sorted, Level(sorted, step, steps), size)
  {
    var table := new WaterTable(sorted);
    steps := table.AllocateWater(size, step);
    var keys := Iterate(packets.Keys);
    ghost var filled, level := table.rows, Level(sorted, step, steps);
    assert Last(sorted).owd <= level && TotalWater(sorted, level) >= size;
    ghost var route, front;
    SamePids(filled, sorted, level);
    calls, route, front := Pour(packets, keys, table);
    PouringIsBounded(calls, packets, sorted, filled, level, route, front, size);
  }

  lemma SamePids(table: seq<PathWater>, rows: seq<PathWater>, level: nat)
    requires FilledTo(table, rows, level)
    ensures DistinctPids(rows) ==> DistinctPids(table)
    ensures forall j :: 0 <= j < |rows| ==> table[j].pid == rows[j].pid && table[j].bytes == Water(rows[j], level)
  {
  }

  lemma SomeRow(table: seq<PathWater>, pids: seq<nat>, paths: map<nat, PathInfo>)
    requires IsArrangement(table, pids, paths)
    requires SomeRated(pids, paths)
    ensures table != [] && forall j :: 0 <= j < |table| ==> table[j].bps > 0
  {
    var pid :| Rated(pids, paths, pid);
    assert HasPid(table, pid);
    forall j | 0 <= j < |table|
      ensures table[j].bps > 0
    {
      assert table[j] in table;
    }
  }

  /** Paths are used in the order of their delays. */
  ghost predicate InDelayOrder(calls: seq<Assignment>, rows: seq<PathWater>) {
    exists route :: RoutedTo(calls, rows, route, |rows|)
  }

  /** A path takes less than its water and its last packet, and so is done by the level but for that. */
  ghost predicate DoneButLast(calls: seq<Assignment>, packets: map<nat, nat>, row: PathWater, level: nat) {
    var load, last := Load(calls, packets, row.pid), LastLen(calls, packets, row.pid);
    load < Water(row, level) + last && DoneByLevel(row, level, load, last - 1)
  }

  /** Every path is done by the level and its last packet less a byte; the slowest,
      when the frame is as long as its packets, by the level itself. */
  ghost predicate PouredTo(calls: seq<Assignment>, packets: map<nat, nat>, rows: seq<PathWater>, level: nat, size: nat)
    requires rows != []
  {
    && InDelayOrder(calls, rows)
    && (forall j, k :: 0 <= j < k < |rows| && Load(calls, packets, rows[k].pid) > 0 ==>
          Load(calls, packets, rows[j].pid) >= Water(rows[j], level))
    && (forall j :: 0 <= j < |rows| - 1 && Load(calls, packets, rows[j].pid) > 0 ==>
          DoneButLast(calls, packets, rows[j], level))
    && (Sum(packets) <= size ==>
          && Load(calls, packets, Last(rows).pid) <= Water(Last(rows), level)
          && DoneByLevel(Last(rows), level, Load(calls, packets, Last(rows).pid), 0))
  }

  lemma PouringIsBounded(calls: seq<Assignment>, packets: map<nat, nat>, rows: seq<PathWater>, table: seq<PathWater>,
                         level: nat, route: seq<nat>, front: nat, size: nat)
    requires rows != [] && Sorted(rows) && DistinctPids(table) && FilledTo(table, rows, level)
    requires Last(rows).owd <= level && TotalWater(rows, level) >= size
    requires front < |table| && RoutedTo(calls, table, route, front)
    requires exists left :: Poured(calls, packets, table, front, left)
    requires InOrder(PacketIds(calls), packets.Keys)
    ensures PouredTo(calls, packets, rows, level, size)
  {
    var left :| Poured(calls, packets, table, front, left);
    SamePids(table, rows, level);
    forall j | 0 <= j < |table|
      ensures table[j].bytes >= 0
    {
      WaterNatural(rows[j], level);
    }
    PouredWithinWater(calls, packets, table, front, left);
    assert RoutedTo(calls, rows, route, |rows|);
    FilledBytes(table, rows, level, |rows|);
    if Sum(packets) <= size {
      LastWithinWater(calls, packets, table, route, front, left);
      WaterIsTime(Last(rows), level, Load(calls, packets, Last(rows).pid), 0);
    }
    forall j | 0 <= j < |rows| - 1 && Load(calls, packets, rows[j].pid) > 0
      ensures DoneButLast(calls, packets, rows[j], level)
    {
      RowDone(calls, packets, table, rows, level, j);
    }
  }

  lemma RowDone(calls: seq<Assignment>, packets: map<nat, nat>, table: seq<PathWater>, rows: seq<PathWater>,
                level: nat, j: nat)
    requires j < |rows| - 1 && |table| == |rows| && WithinWater(calls, packets, table)
    requires table[j].pid == rows[j].pid && table[j].bytes == Water(rows[j], level)
    requires Load(calls, packets, rows[j].pid) > 0
    ensures DoneButLast(calls, packets, rows[j], level)
  {
    assert NotOverfull(table[j], Load(calls, packets, table[j].pid), LastLen(calls, packets, table[j].pid));
    WaterIsTime(rows[j], level, Load(calls, packets, rows[j].pid), LastLen(calls, packets, rows[j].pid) - 1);
  }
}
