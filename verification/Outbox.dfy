/** Packets leaving a pending buffer, one id after the other. */
module Outbox {
  import opened Ordered

  ghost predicate AllPending<V>(pending: map<nat, V>, ids: seq<nat>) {
    forall t :: 0 <= t < |ids| ==> ids[t] in pending
  }

  /** What stays pending once the ids have left. */
  function Less<V>(pending: map<nat, V>, ids: seq<nat>): map<nat, V> {
    if ids == [] then pending else Less(pending, ids[..|ids| - 1]) - {ids[|ids| - 1]}
  }

  /** What has been sent once the ids have moved over. */
  ghost function More<V>(sent: map<nat, V>, pending: map<nat, V>, ids: seq<nat>): map<nat, V>
    requires AllPending(pending, ids)
  {
    if ids == [] then sent
    else More(sent, pending, ids[..|ids| - 1])[ids[|ids| - 1] := pending[ids[|ids| - 1]]]
  }

  lemma {:induction false} LessAt<V>(pending: map<nat, V>, ids: seq<nat>, id: nat)
    ensures id in Less(pending, ids) <==> id in pending && id !in ids
    ensures id in Less(pending, ids) ==> Less(pending, ids)[id] == pending[id]
    decreases |ids|
  {
    if ids != [] {
      LessAt(pending, ids[..|ids| - 1], id);
      assert ids == ids[..|ids| - 1] + [ids[|ids| - 1]];
    }
  }

  lemma {:induction false} MoreAt<V>(sent: map<nat, V>, pending: map<nat, V>, ids: seq<nat>, id: nat)
    requires AllPending(pending, ids)
    ensures id in More(sent, pending, ids) <==> id in sent || id in ids
    ensures id in More(sent, pending, ids) ==>
              More(sent, pending, ids)[id] == if id in ids then pending[id] else sent[id]
    decreases |ids|
  {
    if ids != [] {
      MoreAt(sent, pending, ids[..|ids| - 1], id);
      assert ids == ids[..|ids| - 1] + [ids[|ids| - 1]];
    }
  }

  ghost predicate Lists<V>(ids: seq<nat>, m: map<nat, V>) {
    forall id :: id in ids <==> id in m
  }

  lemma AllGone<V>(pending: map<nat, V>, ids: seq<nat>)
    requires Lists(ids, pending)
    ensures Less(pending, ids) == map[]
  {
    forall id ensures id !in Less(pending, ids) {
      LessAt(pending, ids, id);
    }
  }

  lemma AllSent<V>(sent: map<nat, V>, pending: map<nat, V>, ids: seq<nat>)
    requires Lists(ids, pending) && AllPending(pending, ids)
    ensures More(sent, pending, ids) == sent + pending
  {
    var more := More(sent, pending, ids);
    forall id ensures id in more <==> id in sent + pending
              ensures id in more ==> more[id] == (sent + pending)[id] {
      MoreAt(sent, pending, ids, id);
    }
  }

  /** When the ids list all of the buffer, nothing stays behind and everything has moved. */
  lemma AllMoved<V>(sent: map<nat, V>, pending: map<nat, V>, ids: seq<nat>)
    requires InOrder(ids, pending.Keys)
    ensures AllPending(pending, ids)
    ensures Less(pending, ids) == map[] && More(sent, pending, ids) == sent + pending
  {
    assert Lists(ids, pending);
    AllGone(pending, ids);
    AllSent(sent, pending, ids);
  }

  /** The next id of a rising list has not left yet. */
  lemma NextPending<V>(pending: map<nat, V>, ids: seq<nat>, t: nat)
    requires t < |ids| && Increasing(ids) && AllPending(pending, ids)
    ensures ids[t] in Less(pending, ids[..t]) && Less(pending, ids[..t])[ids[t]] == pending[ids[t]]
    ensures Less(pending, ids[..t + 1]) == Less(pending, ids[..t]) - {ids[t]}
    ensures AllPending(pending, ids[..t]) && AllPending(pending, ids[..t + 1])
  {
    LessAt(pending, ids[..t], ids[t]);
    assert ids[..t + 1][..t] == ids[..t];
  }

  lemma NextMoves<V>(sent: map<nat, V>, pending: map<nat, V>, ids: seq<nat>, t: nat)
    requires t < |ids| && AllPending(pending, ids)
    ensures AllPending(pending, ids[..t]) && AllPending(pending, ids[..t + 1])
    ensures More(sent, pending, ids[..t + 1]) == More(sent, pending, ids[..t])[ids[t] := pending[ids[t]]]
  {
    assert ids[..t + 1][..t] == ids[..t];
  }
}
