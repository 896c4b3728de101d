/** Iteration order of the C++ ordered containers: std::set and std::map visit
    their keys in ascending order, and begin() is the least key. */
module Ordered {

  predicate IsLeast(s: set<nat>, m: nat) {
    m in s && forall x :: x in s ==> m <= x
  }

  /** The key that begin() refers to. */
  function Least(s: set<nat>): (m: nat)
    requires s != {}
    ensures IsLeast(s, m)
  {
    LeastExists(s);
    assert forall m, m' :: IsLeast(s, m) && IsLeast(s, m') ==> m == m';
    var m: nat :| IsLeast(s, m);
    m
  }

  lemma {:induction false} LeastExists(s: set<nat>)
    requires s != {}
    ensures exists m :: IsLeast(s, m)
  {
    var k :| k in s;
    var rest := s - {k};
    assert forall x :: x in s ==> x == k || x in rest;
    if rest == {} {
      assert IsLeast(s, k);
    } else {
      LeastExists(rest);
      var m :| IsLeast(rest, m);
      assert IsLeast(s, if k <= m then k else m);
    }
  }

  ghost predicate Increasing(keys: seq<nat>) {
    forall i, j :: 0 <= i < j < |keys| ==> keys[i] < keys[j]
  }

  /** `keys` lists the set in iteration order. */
  ghost predicate InOrder(keys: seq<nat>, s: set<nat>) {
    && Increasing(keys)
    && (forall x :: x in keys <==> x in s)
    && |keys| == |s|
  }

  lemma DropGreatest(keys: seq<nat>, s: set<nat>)
    requires InOrder(keys, s) && keys != []
    ensures keys[|keys| - 1] in s
    ensures InOrder(keys[..|keys| - 1], s - {keys[|keys| - 1]})
  {
    var last, front := keys[|keys| - 1], keys[..|keys| - 1];
    assert keys == front + [last];
    assert last in keys;
  }

  function Keys(s: set<nat>): (keys: seq<nat>)
    ensures InOrder(keys, s)
  {
    if s == {} then []
    else
      var m := Least(s);
      [m] + Keys(s - {m})
  }

  /** All keys in iteration order. */
  method Iterate(s: set<nat>) returns (keys: seq<nat>)
    ensures InOrder(keys, s)
  {
    keys := Keys(s);
  }

  /** The sum of the values of a map. */
  ghost function Sum(m: map<nat, int>): int
    decreases |m|
  {
    if m == map[] then 0
    else
      var k := Least(m.Keys);
      assert |(m - {k}).Keys| < |m.Keys|;
      m[k] + Sum(m - {k})
  }

  lemma {:induction false} SumRemove(m: map<nat, int>, k: nat)
    requires k in m
    ensures Sum(m) == m[k] + Sum(m - {k})
    decreases |m|
  {
    var l := Least(m.Keys);
    if l != k {
      var rest := m - {l};
      assert |rest.Keys| < |m.Keys|;
      SumRemove(rest, k);
      var both := m - {k};
      assert l in both.Keys && forall x :: x in both.Keys ==> x in m.Keys;
      assert Least(both.Keys) == l;
      assert both - {l} == rest - {k};
      assert both != map[];
    }
  }

  lemma SumInsert(m: map<nat, int>, k: nat, v: int)
    requires k !in m
    ensures Sum(m[k := v]) == Sum(m) + v
  {
    SumRemove(m[k := v], k);
    assert m[k := v] - {k} == m;
  }

  // ---- going through a map in order ----

  ghost predicate AllIn(keys: seq<nat>, m: map<nat, nat>) {
    forall i :: 0 <= i < |keys| ==> keys[i] in m
  }

  /** The entries under the first i keys. */
  ghost function Part(m: map<nat, nat>, keys: seq<nat>, i: nat): (p: map<nat, nat>)
    requires i <= |keys| && AllIn(keys, m)
  {
    if i == 0 then map[] else Part(m, keys, i - 1)[keys[i - 1] := m[keys[i - 1]]]
  }

  lemma {:induction false} PartKey(m: map<nat, nat>, keys: seq<nat>, i: nat, k: nat)
    requires i <= |keys| && AllIn(keys, m)
    ensures k in Part(m, keys, i) <==> k in keys[..i]
    ensures k in keys[..i] ==> k in m && Part(m, keys, i)[k] == m[k]
  {
    if i > 0 {
      PartKey(m, keys, i - 1, k);
      assert keys[..i] == keys[..i - 1] + [keys[i - 1]];
    }
  }

  lemma PartNext(m: map<nat, nat>, keys: seq<nat>, i: nat)
    requires i < |keys| && Increasing(keys) && AllIn(keys, m)
    ensures Sum(Part(m, keys, i + 1)) == Sum(Part(m, keys, i)) + m[keys[i]]
  {
    PartKey(m, keys, i, keys[i]);
    assert keys[i] !in keys[..i];
    SumInsert(Part(m, keys, i), keys[i], m[keys[i]]);
  }

  lemma PartAll(m: map<nat, nat>, keys: seq<nat>)
    requires InOrder(keys, m.Keys) && AllIn(keys, m)
    ensures Part(m, keys, |keys|) == m
  {
    assert keys[..|keys|] == keys;
    forall k ensures k in Part(m, keys, |keys|) <==> k in m
             ensures k in m ==> Part(m, keys, |keys|)[k] == m[k] {
      PartKey(m, keys, |keys|, k);
      assert k in keys <==> k in m.Keys;
    }
  }
}
