/** Weighted round robin: the state machine that walks the server list at a
    falling weight threshold. */
module Wrr {
  import opened Sequences

  datatype ServerInfo = ServerInfo(id: nat, weight: nat)

  function MaxUpTo(servers: seq<ServerInfo>, n: nat): nat
    requires n <= |servers|
  {
    if n == 0 then 0
    else
      var m, w := MaxUpTo(servers, n - 1), servers[n - 1].weight;
      if w > m then w else m
  }

  function MaxWeight(servers: seq<ServerInfo>): nat {
    MaxUpTo(servers, |servers|)
  }

  lemma {:induction false} MaxUpToIsMax(servers: seq<ServerInfo>, n: nat)
    requires n <= |servers|
    ensures forall k :: 0 <= k < n ==> servers[k].weight <= MaxUpTo(servers, n)
    ensures n > 0 ==> exists k :: 0 <= k < n && servers[k].weight == MaxUpTo(servers, n)
  {
    if n > 0 {
      MaxUpToIsMax(servers, n - 1);
      assert servers[n - 1].weight <= MaxUpTo(servers, n);
    }
  }

  lemma {:induction false} MaxUpToPrefix(servers: seq<ServerInfo>, more: seq<ServerInfo>, n: nat)
    requires n <= |servers|
    ensures MaxUpTo(servers + more, n) == MaxUpTo(servers, n)
  {
    if n > 0 {
      MaxUpToPrefix(servers, more, n - 1);
    }
  }

  /** The indices from `from` on that are served at threshold `c`, in order. */
  ghost function Level(servers: seq<ServerInfo>, c: nat, from: nat): seq<nat>
    decreases |servers| - from
  {
    if from >= |servers| then []
    else if servers[from].weight >= c then [from] + Level(servers, c, from + 1)
    else Level(servers, c, from + 1)
  }

  /** The picks of thresholds c, c-1, ..., 1. */
  ghost function Rounds(servers: seq<ServerInfo>, c: nat): seq<nat> {
    if c == 0 then [] else Level(servers, c, 0) + Rounds(servers, c - 1)
  }

  /** One whole cycle: thresholds fall from the largest weight to one. */
  ghost function Cycle(servers: seq<ServerInfo>): seq<nat> {
    Rounds(servers, MaxWeight(servers))
  }

  /** What is still to be served in the current cycle when the walk stands at
      index `i` with threshold `cw`. */
  ghost function Rest(servers: seq<ServerInfo>, i: int, cw: int): seq<nat>
    requires -1 <= i
  {
    if cw <= 0 then [] else Level(servers, cw, i + 1) + Rounds(servers, cw - 1)
  }

  /** The weights of the first n servers, each cut off at c. */
  ghost function Truncated(servers: seq<ServerInfo>, c: nat, n: nat): nat
    requires n <= |servers|
  {
    if n == 0 then 0
    else
      var w := servers[n - 1].weight;
      Truncated(servers, c, n - 1) + if w < c then w else c
  }

  ghost function SumUpTo(servers: seq<ServerInfo>, n: nat): nat
    requires n <= |servers|
  {
    if n == 0 then 0 else SumUpTo(servers, n - 1) + servers[n - 1].weight
  }

  ghost function SumWeights(servers: seq<ServerInfo>): nat {
    SumUpTo(servers, |servers|)
  }

  lemma {:induction false} SumUpToPrefix(servers: seq<ServerInfo>, more: seq<ServerInfo>, n: nat)
    requires n <= |servers|
    ensures SumUpTo(servers + more, n) == SumUpTo(servers, n)
  {
    if n > 0 {
      SumUpToPrefix(servers, more, n - 1);
    }
  }

  lemma {:induction false} LevelCounts(servers: seq<ServerInfo>, c: nat, from: nat, k: nat)
    requires k < |servers|
    ensures Count(Level(servers, c, from), k) == if from <= k && servers[k].weight >= c then 1 else 0
    decreases |servers| - from
  {
    if from < |servers| {
      LevelCounts(servers, c, from + 1, k);
      var rest := Level(servers, c, from + 1);
      assert ([from] + rest)[1..] == rest;
    }
  }

  lemma {:induction false} RoundsCounts(servers: seq<ServerInfo>, c: nat, k: nat)
    requires k < |servers|
    ensures Count(Rounds(servers, c), k) == if servers[k].weight < c then servers[k].weight else c
  {
    if c > 0 {
      LevelCounts(servers, c, 0, k);
      RoundsCounts(servers, c - 1, k);
      CountAppend(Level(servers, c, 0), Rounds(servers, c - 1), k);
    }
  }

  /** In one cycle every server is picked exactly as often as its weight says. */
  lemma CycleCounts(servers: seq<ServerInfo>, k: nat)
    requires k < |servers|
    ensures Count(Cycle(servers), k) == servers[k].weight
  {
    MaxUpToIsMax(servers, |servers|);
    RoundsCounts(servers, MaxWeight(servers), k);
  }

  /** Lowering the threshold by one drops as many picks as there are servers at it. */
  lemma {:induction false} LevelLength(servers: seq<ServerInfo>, c: nat, from: nat)
    requires from <= |servers|
    ensures |Level(servers, c + 1, from)| + Truncated(servers, c, |servers|) + Truncated(servers, c + 1, from)
            == Truncated(servers, c + 1, |servers|) + Truncated(servers, c, from)
    decreases |servers| - from
  {
    if from < |servers| {
      LevelLength(servers, c, from + 1);
    }
  }

  lemma {:induction false} RoundsLength(servers: seq<ServerInfo>, c: nat)
    ensures |Rounds(servers, c)| == Truncated(servers, c, |servers|)
  {
    if c == 0 {
      TruncatedZero(servers, |servers|);
    } else {
      RoundsLength(servers, c - 1);
      LevelLength(servers, c - 1, 0);
    }
  }

  lemma {:induction false} TruncatedZero(servers: seq<ServerInfo>, n: nat)
    requires n <= |servers|
    ensures Truncated(servers, 0, n) == 0
  {
    if n > 0 {
      TruncatedZero(servers, n - 1);
    }
  }

  lemma {:induction false} TruncatedAll(servers: seq<ServerInfo>, c: nat, n: nat)
    requires n <= |servers| && MaxUpTo(servers, n) <= c
    ensures Truncated(servers, c, n) == SumUpTo(servers, n)
  {
    if n > 0 {
      TruncatedAll(servers, c, n - 1);
    }
  }

  /** The cycle is as long as the weights add up to. */
  lemma CycleLength(servers: seq<ServerInfo>)
    ensures |Cycle(servers)| == SumWeights(servers)
  {
    RoundsLength(servers, MaxWeight(servers));
    TruncatedAll(servers, MaxWeight(servers), |servers|);
  }

  ghost predicate IsSuffix<T>(a: seq<T>, b: seq<T>) {
    |a| <= |b| && a == b[|b| - |a|..]
  }

  lemma {:induction false} LevelSuffix(servers: seq<ServerInfo>, c: nat, from: nat)
    ensures IsSuffix(Level(servers, c, from), Level(servers, c, 0))
  {
    if from > 0 {
      LevelSuffix(servers, c, from - 1);
    }
  }

  lemma {:induction false} RoundsSuffix(servers: seq<ServerInfo>, c: nat, d: nat)
    requires c <= d
    ensures IsSuffix(Rounds(servers, c), Rounds(servers, d))
    decreases d
  {
    if c < d {
      RoundsSuffix(servers, c, d - 1);
    }
  }

  /** In every reachable state the picks still due are a tail of the cycle. */
  lemma RestIsSuffix(servers: seq<ServerInfo>, i: int, cw: int)
    requires -1 <= i && cw <= MaxWeight(servers)
    ensures IsSuffix(Rest(servers, i, cw), Cycle(servers))
  {
    if cw > 0 {
      LevelSuffix(servers, cw, i + 1);
      SuffixAppend(Level(servers, cw, i + 1), Level(servers, cw, 0), Rounds(servers, cw - 1));
      RoundsSuffix(servers, cw, MaxWeight(servers));
      SuffixTrans(Rest(servers, i, cw), Rounds(servers, cw), Cycle(servers));
    }
  }

  lemma SuffixAppend<T>(a: seq<T>, b: seq<T>, c: seq<T>)
    requires IsSuffix(a, b)
    ensures IsSuffix(a + c, b + c)
  {
  }

  lemma SuffixTrans<T>(a: seq<T>, b: seq<T>, c: seq<T>)
    requires IsSuffix(a, b) && IsSuffix(b, c)
    ensures IsSuffix(a, c)
  {
    assert c[|c| - |b|..][|b| - |a|..] == c[|c| - |a|..];
  }

  ghost function Refill(cycle: seq<nat>, rest: seq<nat>): (due: seq<nat>)
    requires cycle != []
    ensures due != []
  {
    if rest == [] then cycle else rest
  }

  /** The next k picks when `rest` is due before the cycle starts over. */
  ghost function Picks(cycle: seq<nat>, rest: seq<nat>, k: nat): seq<nat>
    requires cycle != []
    decreases k
  {
    if k == 0 then []
    else
      var due := Refill(cycle, rest);
      [due[0]] + Picks(cycle, due[1..], k - 1)
  }

  /** What is due after k picks. */
  ghost function After(cycle: seq<nat>, rest: seq<nat>, k: nat): seq<nat>
    requires cycle != []
    decreases k
  {
    if k == 0 then rest else After(cycle, Refill(cycle, rest)[1..], k - 1)
  }

  lemma {:induction false} PicksAppend(cycle: seq<nat>, rest: seq<nat>, k: nat, later: nat)
    requires cycle != []
    ensures Picks(cycle, rest, k + later) == Picks(cycle, rest, k) + Picks(cycle, After(cycle, rest, k), later)
    decreases k
  {
    if k > 0 {
      var due := Refill(cycle, rest);
      PicksAppend(cycle, due[1..], k - 1, later);
      Assoc([due[0]], Picks(cycle, due[1..], k - 1), Picks(cycle, After(cycle, rest, k), later));
    }
  }

  lemma Assoc(a: seq<nat>, b: seq<nat>, c: seq<nat>)
    ensures (a + b) + c == a + (b + c)
  {
  }

  lemma PicksStep(cycle: seq<nat>, done: seq<nat>, rest: seq<nat>, k: nat)
    requires cycle != [] && k > 0
    ensures var due := Refill(cycle, rest);
            done + Picks(cycle, rest, k) == (done + [due[0]]) + Picks(cycle, due[1..], k - 1)
  {
    var due := Refill(cycle, rest);
    Assoc(done, [due[0]], Picks(cycle, due[1..], k - 1));
  }

  /** Picks that do not exhaust what is due are its head. */
  lemma {:induction false} PicksWithin(cycle: seq<nat>, rest: seq<nat>, k: nat)
    requires cycle != [] && k <= |rest|
    ensures Picks(cycle, rest, k) == rest[..k]
    ensures After(cycle, rest, k) == rest[k..]
    decreases k
  {
    if k > 0 {
      PicksWithin(cycle, rest[1..], k - 1);
      assert rest[..k] == [rest[0]] + rest[1..][..k - 1];
      assert rest[k..] == rest[1..][k - 1..];
    }
  }

  lemma PicksRestart(cycle: seq<nat>, k: nat)
    requires cycle != []
    ensures Picks(cycle, [], k) == Picks(cycle, cycle, k)
    ensures k > 0 ==> After(cycle, [], k) == After(cycle, cycle, k)
  {
  }

  /** From any point of the cycle, as many calls as the weights add up to pick
      every server exactly weight-many times, and the calls after them go on as
      if they had not been made. */
  lemma CycleFromAnywhere(servers: seq<ServerInfo>, i: int, cw: int, k: nat, later: nat)
    requires k < |servers| && Cycle(servers) != []
    requires -1 <= i && cw <= MaxWeight(servers)
    ensures var cycle, rest, w := Cycle(servers), Rest(servers, i, cw), SumWeights(servers);
            && Count(Picks(cycle, rest, w), k) == servers[k].weight
            && Picks(cycle, rest, w + later) == Picks(cycle, rest, w) + Picks(cycle, rest, later)
  {
    var cycle := Cycle(servers);
    CycleLength(servers);
    CycleCounts(servers, k);
    RestIsSuffix(servers, i, cw);
    PicksFromTail(cycle, Rest(servers, i, cw), k, later);
  }

  lemma PicksFromTail(cycle: seq<nat>, rest: seq<nat>, k: nat, later: nat)
    requires cycle != [] && IsSuffix(rest, cycle)
    ensures Count(Picks(cycle, rest, |cycle|), k) == Count(cycle, k)
    ensures Picks(cycle, rest, |cycle| + later) == Picks(cycle, rest, |cycle|) + Picks(cycle, rest, later)
  {
    var front := cycle[..|cycle| - |rest|];
    assert cycle == front + rest;
    CountAppend(front, rest, k);
    CountAppend(rest, front, k);
    PicksRoundTrip(cycle, front, rest);
    PicksAppend(cycle, rest, |cycle|, later);
    PicksRestart(cycle, later);
  }

  lemma PicksOfFront(cycle: seq<nat>, front: seq<nat>, rest: seq<nat>)
    requires cycle != [] && cycle == front + rest
    ensures Picks(cycle, [], |front|) == front
    ensures After(cycle, [], |front|) == if front == [] then [] else rest
  {
    PicksRestart(cycle, |front|);
    PicksWithin(cycle, cycle, |front|);
    assert cycle[..|front|] == front && cycle[|front|..] == rest;
  }

  lemma PicksRoundTrip(cycle: seq<nat>, front: seq<nat>, rest: seq<nat>)
    requires cycle != [] && cycle == front + rest
    ensures Picks(cycle, rest, |cycle|) == rest + front
    ensures After(cycle, rest, |cycle|) == if front == [] then [] else rest
  {
    assert |cycle| == |rest| + |front|;
    PicksWithin(cycle, rest, |rest|);
    assert rest[..|rest|] == rest && rest[|rest|..] == [];
    PicksAppend(cycle, rest, |rest|, |front|);
    AfterAppend(cycle, rest, |rest|, |front|);
    PicksOfFront(cycle, front, rest);
  }

  lemma {:induction false} AfterAppend(cycle: seq<nat>, rest: seq<nat>, k: nat, later: nat)
    requires cycle != []
    ensures After(cycle, rest, k + later) == After(cycle, After(cycle, rest, k), later)
    decreases k
  {
    if k > 0 {
      AfterAppend(cycle, Refill(cycle, rest)[1..], k - 1, later);
    }
  }

  /** How often server k is among the first p picks of a fresh walk: its weight,
      give or take the distance between p and the weight total. */
  lemma PicksNearWeight(servers: seq<ServerInfo>, k: nat, p: nat)
    requires k < |servers| && Cycle(servers) != []
    ensures var c, w := Count(Picks(Cycle(servers), [], p), k), SumWeights(servers);
            && (p <= w ==> servers[k].weight - (w - p) <= c <= servers[k].weight)
            && (w <= p ==> servers[k].weight <= c <= servers[k].weight + (p - w))
  {
    var cycle, w := Cycle(servers), SumWeights(servers);
    CycleLength(servers);
    CycleCounts(servers, k);
    PicksRestart(cycle, p);
    if p <= w {
      PicksWithin(cycle, cycle, p);
      assert cycle == cycle[..p] + cycle[p..];
      CountAppend(cycle[..p], cycle[p..], k);
      CountBound(cycle[p..], k);
    } else {
      PicksWithin(cycle, cycle, w);
      assert cycle[..w] == cycle;
      PicksAppend(cycle, cycle, w, p - w);
      var more := Picks(cycle, After(cycle, cycle, w), p - w);
      PicksLength(cycle, After(cycle, cycle, w), p - w);
      CountAppend(cycle, more, k);
      CountBound(more, k);
    }
  }

  lemma {:induction false} PicksLength(cycle: seq<nat>, rest: seq<nat>, k: nat)
    requires cycle != []
    ensures |Picks(cycle, rest, k)| == k
    decreases k
  {
    if k > 0 {
      PicksLength(cycle, Refill(cycle, rest)[1..], k - 1);
    }
  }

  ghost function Served(servers: seq<ServerInfo>, c: int, k: nat): seq<nat>
    requires k < |servers|
  {
    if servers[k].weight >= c then [k] else []
  }

  /** Passing an index serves it when its weight reaches the threshold. */
  lemma PassIndex(servers: seq<ServerInfo>, i: int, cw: int)
    requires servers != [] && -1 <= i < |servers| - 1 && cw > 0
    ensures Rest(servers, i, cw) == Served(servers, cw, i + 1) + Rest(servers, i + 1, cw)
  {
    assert Level(servers, cw, i + 1) == Served(servers, cw, i + 1) + Level(servers, cw, i + 2);
    Assoc(Served(servers, cw, i + 1), Level(servers, cw, i + 2), Rounds(servers, cw - 1));
  }

  /** Running off the end lowers the threshold and goes on at the front. */
  lemma PassEnd(servers: seq<ServerInfo>, cw: int)
    requires servers != [] && cw >= 1
    ensures Rest(servers, |servers| - 1, cw) == Rest(servers, -1, cw - 1)
  {
    assert Level(servers, cw, |servers|) == [];
  }

  ghost predicate AtState(servers: seq<ServerInfo>, i: int, cw: int) {
    && -1 <= i < |servers|
    && cw <= MaxWeight(servers)
    && (if i == -1 then cw == 0 else cw >= 1)
  }

  /** What will be served from a state: the rest of the cycle, or a new one. */
  ghost function Upcoming(servers: seq<ServerInfo>, i: int, cw: int): seq<nat>
    requires -1 <= i
  {
    if Rest(servers, i, cw) == [] then Cycle(servers) else Rest(servers, i, cw)
  }

  /** Nothing of the current cycle is due any more. */
  ghost predicate UsedUp(servers: seq<ServerInfo>, i: int, cw: int)
    requires -1 <= i
  {
    Rest(servers, i, cw) == []
  }

  ghost predicate Heads(first: nat, rest: seq<nat>, due: seq<nat>) {
    due != [] && due[0] == first && due[1..] == rest
  }

  /** The state left by a turn from (i, cw) either serves the head of the upcoming
      picks, or keeps them all and moves on. */
  ghost predicate TurnIsSound(servers: seq<ServerInfo>, i: int, cw: int, i': nat, cw': int)
    requires -1 <= i
  {
    && AtState(servers, i', cw')
    && if servers[i'].weight >= cw' then
         Heads(i', Rest(servers, i', cw'), Upcoming(servers, i, cw))
       else
         && Upcoming(servers, i', cw') == Upcoming(servers, i, cw)
         && (UsedUp(servers, i, cw) || !UsedUp(servers, i', cw'))
         && ((UsedUp(servers, i, cw) && !UsedUp(servers, i', cw')) || cw' < cw || (cw' == cw && i < i'))
  }

  /** When what was due is `served` followed by what is due now. */
  lemma ServeOrKeep(servers: seq<ServerInfo>, due: seq<nat>, c: int, k: nat, rest: seq<nat>)
    requires k < |servers| && due == Served(servers, c, k) + rest
    ensures if servers[k].weight >= c then Heads(k, rest, due) else due == rest
  {
  }

  /** A turn that serves or passes over one index, onward or at a lower threshold. */
  lemma OneTurnSound(servers: seq<ServerInfo>, i: int, cw: int, i': nat, cw': int)
    requires -1 <= i && AtState(servers, i', cw')
    requires Rest(servers, i, cw) == Served(servers, cw', i') + Rest(servers, i', cw')
    requires cw' < cw || (cw' == cw && i < i')
    ensures TurnIsSound(servers, i, cw, i', cw')
  {
    ServeOrKeep(servers, Rest(servers, i, cw), cw', i', Rest(servers, i', cw'));
  }

  lemma TurnInside(servers: seq<ServerInfo>, i: int, cw: int)
    requires AtState(servers, i, cw) && i + 1 < |servers| && cw >= 1
    ensures TurnIsSound(servers, i, cw, i + 1, cw)
  {
    PassIndex(servers, i, cw);
    OneTurnSound(servers, i, cw, i + 1, cw);
  }

  lemma PassToFront(servers: seq<ServerInfo>, cw: int)
    requires servers != [] && cw >= 2
    ensures Rest(servers, |servers| - 1, cw) == Served(servers, cw - 1, 0) + Rest(servers, 0, cw - 1)
  {
    PassEnd(servers, cw);
    PassIndex(servers, -1, cw - 1);
  }

  lemma TurnLowers(servers: seq<ServerInfo>, cw: int)
    requires AtState(servers, |servers| - 1, cw) && cw >= 2
    ensures TurnIsSound(servers, |servers| - 1, cw, 0, cw - 1)
  {
    PassToFront(servers, cw);
    OneTurnSound(servers, |servers| - 1, cw, 0, cw - 1);
  }

  lemma TurnWraps(servers: seq<ServerInfo>, i: int, cw: int)
    requires AtState(servers, i, cw) && Cycle(servers) != []
    requires cw <= 1 && (i == -1 || i + 1 == |servers|)
    ensures MaxWeight(servers) >= 1 && TurnIsSound(servers, i, cw, 0, MaxWeight(servers))
  {
    RestUsedUp(servers, i, cw);
    StartCycle(servers);
  }

  lemma RestUsedUp(servers: seq<ServerInfo>, i: int, cw: int)
    requires AtState(servers, i, cw) && cw <= 1 && (i == -1 || i + 1 == |servers|)
    ensures Rest(servers, i, cw) == []
  {
    if cw == 1 {
      PassEnd(servers, cw);
    }
  }

  lemma StartCycle(servers: seq<ServerInfo>)
    requires Cycle(servers) != []
    ensures servers != [] && MaxWeight(servers) >= 1
    ensures var rest := Rest(servers, 0, MaxWeight(servers));
            if servers[0].weight >= MaxWeight(servers) then Heads(0, rest, Cycle(servers)) else Cycle(servers) == rest
  {
    var max := MaxWeight(servers);
    assert Rest(servers, -1, max) == Cycle(servers);
    PassIndex(servers, -1, max);
    ServeOrKeep(servers, Cycle(servers), max, 0, Rest(servers, 0, max));
  }

  /** i_=(i_+1)%n. */
  method Advance(i: int, n: nat) returns (next: nat)
    requires n > 0 && -1 <= i < n
    ensures next == if i + 1 == n then 0 else i + 1
  {
    next := (i + 1) % n;
  }

  /** The state after one turn of the loop in GetServer. */
  ghost function Turn(servers: seq<ServerInfo>, i: int, cw: int): (int, int)
    requires AtState(servers, i, cw)
  {
    if i + 1 < |servers| && i != -1 then (i + 1, cw)
    else if cw >= 2 then (0, cw - 1)
    else (0, MaxWeight(servers))
  }

  lemma TurnSound(servers: seq<ServerInfo>, i: int, cw: int)
    requires servers != [] && AtState(servers, i, cw) && Cycle(servers) != []
    ensures var (i', cw') := Turn(servers, i, cw);
            i' >= 0 && TurnIsSound(servers, i, cw, i', cw')
  {
    if i + 1 < |servers| && i != -1 {
      TurnInside(servers, i, cw);
    } else if cw >= 2 {
      TurnLowers(servers, cw);
    } else {
      TurnWraps(servers, i, cw);
    }
  }

  ghost predicate HasServer(servers: seq<ServerInfo>, id: nat) {
    exists k :: 0 <= k < |servers| && servers[k].id == id
  }

  ghost predicate WellFormed(servers: seq<ServerInfo>) {
    && (forall k :: 0 <= k < |servers| ==> servers[k].weight > 0)
    && (forall j, k :: 0 <= j < k < |servers| ==> servers[j].id != servers[k].id)
  }

  lemma KeepsWellFormed(servers: seq<ServerInfo>, id: nat, weight: nat)
    requires WellFormed(servers) && !HasServer(servers, id) && weight > 0
    ensures WellFormed(servers + [ServerInfo(id, weight)])
    ensures MaxWeight(servers) <= MaxWeight(servers + [ServerInfo(id, weight)])
  {
    MaxUpToPrefix(servers, [ServerInfo(id, weight)], |servers|);
  }

  ghost predicate Searching(servers: seq<ServerInfo>, i: int, cw: int, due: seq<nat>) {
    AtState(servers, i, cw) && Upcoming(servers, i, cw) == due
  }

  class WeightRoundRobin {
    var servers: seq<ServerInfo>
    var maxWeight: nat
    var cw: int
    var i: int

    ghost predicate Valid()
      reads this
    {
      && WellFormed(servers)
      && (AtState(servers, i, cw) || (servers == [] && i == -1 && cw == 0))
    }

    /** The picks still due in the current cycle; none in the initial state. */
    ghost function Due(): seq<nat>
      requires Valid()
      reads this
    {
      Rest(servers, i, cw)
    }

    constructor ()
      ensures Valid() && servers == [] && Due() == [] && maxWeight == cw == 0 && i == -1
    {
      servers, maxWeight, cw, i := [], 0, 0, -1;
    }

    method AddServer(id: nat, weight: nat)
      requires Valid()
      modifies this`servers
      ensures Valid()
      ensures servers == if weight == 0 || HasServer(old(servers), id)
                         then old(servers) else old(servers) + [ServerInfo(id, weight)]
    {
      for k := 0 to |servers|
        invariant forall j :: 0 <= j < k ==> servers[j].id != id
      {
        if servers[k].id == id {
          return;
        }
      }
      if weight > 0 {
        KeepsWellFormed(servers, id, weight);
        servers := servers + [ServerInfo(id, weight)];
      }
    }

    method GetMaxWeight() returns (max: nat)
      ensures max == MaxWeight(servers)
    {
      max := 0;
      for k := 0 to |servers|
        invariant max == MaxUpTo(servers, k)
      {
        if servers[k].weight > max {
          max := servers[k].weight;
        }
      }
    }

    /** Serves the head of what is due, starting the cycle over when nothing is. */
    method GetServer() returns (id: nat)
      requires Valid() && servers != []
      modifies this`maxWeight, this`cw, this`i
      ensures Valid() && Cycle(servers) != []
      ensures var due := Refill(Cycle(servers), old(Due()));
              due[0] < |servers| && id == servers[due[0]].id && Due() == due[1..]
    {
      var n := |servers|;
      var gcd := 1;
      maxWeight := GetMaxWeight();
      ghost var all := servers;
      MaxUpToIsMax(all, n);
      CycleNotEmpty(all);
      ghost var due := Refill(Cycle(all), Due());
      while true
        invariant maxWeight == MaxWeight(all) && Searching(all, i, cw, due)
        decreases UsedUp(all, i, cw), cw, n - i
      {
        TurnSound(all, i, cw);
        ghost var next := Turn(all, i, cw);
        i := Advance(i, n);
        if i == 0 {
          cw := cw - gcd;
          if cw <= 0 {
            cw := maxWeight;
          }
        }
        assert i == next.0 && cw == next.1;
        if servers[i].weight >= cw {
          return servers[i].id;
        }
      }
    }
  }

  lemma CycleNotEmpty(servers: seq<ServerInfo>)
    requires exists k :: 0 <= k < |servers| && servers[k].weight > 0
    ensures Cycle(servers) != []
  {
    var k :| 0 <= k < |servers| && servers[k].weight > 0;
    CycleCounts(servers, k);
    CountBound(Cycle(servers), k);
  }
}
