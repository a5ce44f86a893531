/** SQL's `SELECT key, SUM(amount) ... GROUP BY key` over (key, amount) rows: one group
    per distinct key, holding the sum of that key's amounts. Groups are kept in the
    order their keys first appear; SQL leaves that order open and nothing here relies
    on it. */
module Grouping {

  datatype Group<K> = Group(key: K, amount: real)

  /** The sum of the amounts of the rows whose key is `x`, read straight off the rows. */
  function SumWhere<K(==,!new)>(ps: seq<(K, real)>, x: K): real {
    if |ps| == 0 then 0.0
    else SumWhere(ps[..|ps| - 1], x) + (if ps[|ps| - 1].0 == x then ps[|ps| - 1].1 else 0.0)
  }

  /** The sum of all the amounts. */
  function SumAll<K>(ps: seq<(K, real)>): real {
    if |ps| == 0 then 0.0 else SumAll(ps[..|ps| - 1]) + ps[|ps| - 1].1
  }

  function Keys<K>(gs: seq<Group<K>>): set<K> {
    set g | g in gs :: g.key
  }

  /** No key names two groups. */
  predicate Distinct<K(==,!new)>(gs: seq<Group<K>>) {
    forall i, j :: 0 <= i < j < |gs| ==> gs[i].key != gs[j].key
  }

  /** The amount the groups hold for key `x` (the one group's amount when keys are distinct). */
  function AmountOf<K(==,!new)>(gs: seq<Group<K>>, x: K): real {
    if |gs| == 0 then 0.0
    else (if gs[0].key == x then gs[0].amount else 0.0) + AmountOf(gs[1..], x)
  }

  function Total<K>(gs: seq<Group<K>>): real {
    if |gs| == 0 then 0.0 else gs[0].amount + Total(gs[1..])
  }

  /** The keys of a group followed by more groups. */
  lemma KeysCons<K>(g: Group<K>, gs: seq<Group<K>>)
    ensures Keys([g] + gs) == {g.key} + Keys(gs)
  {
    assert forall h :: h in [g] + gs <==> h == g || h in gs;
  }

  /** Groups stay distinct under a new first group exactly when its key is new. */
  lemma DistinctCons<K(!new)>(g: Group<K>, gs: seq<Group<K>>)
    ensures Distinct([g] + gs) <==> Distinct(gs) && g.key !in Keys(gs)
  {
    if Distinct([g] + gs) {
      DistinctTail(g, gs);
    }
    if Distinct(gs) && g.key !in Keys(gs) {
      DistinctPrepend(g, gs);
    }
  }

  lemma DistinctTail<K(!new)>(g: Group<K>, gs: seq<Group<K>>)
    requires Distinct([g] + gs)
    ensures Distinct(gs) && g.key !in Keys(gs)
  {
    var r := [g] + gs;
    forall i, j | 0 <= i < j < |gs| ensures gs[i].key != gs[j].key {
      assert gs[i] == r[i + 1] && gs[j] == r[j + 1];
    }
    assert forall h :: h in gs ==> h.key != g.key by {
      forall h | h in gs ensures h.key != g.key {
        var i :| 0 <= i < |gs| && gs[i] == h;
        assert r[i + 1] == h && r[0] == g;
        assert 0 < i + 1 < |r|;
      }
    }
  }

  lemma DistinctPrepend<K(!new)>(g: Group<K>, gs: seq<Group<K>>)
    requires Distinct(gs) && g.key !in Keys(gs)
    ensures Distinct([g] + gs)
  {
    var r := [g] + gs;
    forall i, j | 0 <= i < j < |r| ensures r[i].key != r[j].key {
      assert r[j] == gs[j - 1] && gs[j - 1] in gs;
      if i > 0 {
        assert r[i] == gs[i - 1];
      }
    }
  }

  /** A key no group carries has nothing in the groups. */
  lemma {:induction false} AmountOfAbsent<K(!new)>(gs: seq<Group<K>>, x: K)
    requires x !in Keys(gs)
    ensures AmountOf(gs, x) == 0.0
  {
    if |gs| > 0 {
      assert gs == [gs[0]] + gs[1..];
      KeysCons(gs[0], gs[1..]);
      AmountOfAbsent(gs[1..], x);
    }
  }

  /** With distinct keys, the amount held for a group's key is that group's amount. */
  lemma {:induction false} AmountOfDistinct<K(!new)>(gs: seq<Group<K>>, j: int)
    requires Distinct(gs) && 0 <= j < |gs|
    ensures AmountOf(gs, gs[j].key) == gs[j].amount
  {
    var rest := gs[1..];
    assert gs == [gs[0]] + rest;
    DistinctCons(gs[0], rest);
    if j == 0 {
      AmountOfAbsent(rest, gs[0].key);
    } else {
      assert rest[j - 1] == gs[j];
      AmountOfDistinct(rest, j - 1);
    }
  }

  /** Adding one row to the groups: the row's amount joins the group of its key, or starts
      a new group at the end when the key is new. */
  function AddTo<K(==,!new)>(gs: seq<Group<K>>, k: K, a: real): (r: seq<Group<K>>)
    ensures Keys(r) == Keys(gs) + {k}
    ensures Distinct(gs) ==> Distinct(r)
    ensures forall x :: AmountOf(r, x) == AmountOf(gs, x) + (if x == k then a else 0.0)
    ensures Total(r) == Total(gs) + a
  {
    if |gs| == 0 then
      [Group(k, a)]
    else if gs[0].key == k then
      AddToFirst(gs, a);
      [gs[0].(amount := gs[0].amount + a)] + gs[1..]
    else
      var rest := AddTo(gs[1..], k, a);
      AddToRest(gs, k, a, rest);
      [gs[0]] + rest
  }

  /** The row joins the first group. */
  lemma AddToFirst<K(!new)>(gs: seq<Group<K>>, a: real)
    requires |gs| > 0
    ensures var r := [gs[0].(amount := gs[0].amount + a)] + gs[1..];
            Keys(r) == Keys(gs) && (Distinct(gs) ==> Distinct(r))
            && (forall x :: AmountOf(r, x) == AmountOf(gs, x) + (if x == gs[0].key then a else 0.0))
            && Total(r) == Total(gs) + a
  {
    var g, tail := gs[0].(amount := gs[0].amount + a), gs[1..];
    var r := [g] + tail;
    assert gs == [gs[0]] + tail && r[1..] == tail && r[0] == g;
    KeysCons(gs[0], tail);
    KeysCons(g, tail);
    DistinctCons(gs[0], tail);
    DistinctCons(g, tail);
  }

  /** The row goes past a first group with another key. */
  lemma AddToRest<K(!new)>(gs: seq<Group<K>>, k: K, a: real, rest: seq<Group<K>>)
    requires |gs| > 0 && gs[0].key != k
    requires Keys(rest) == Keys(gs[1..]) + {k}
    requires Distinct(gs[1..]) ==> Distinct(rest)
    requires forall x :: AmountOf(rest, x) == AmountOf(gs[1..], x) + (if x == k then a else 0.0)
    requires Total(rest) == Total(gs[1..]) + a
    ensures var r := [gs[0]] + rest;
            Keys(r) == Keys(gs) + {k} && (Distinct(gs) ==> Distinct(r))
            && (forall x :: AmountOf(r, x) == AmountOf(gs, x) + (if x == k then a else 0.0))
            && Total(r) == Total(gs) + a
  {
    var first, tail := gs[0], gs[1..];
    var r := [first] + rest;
    assert gs == [first] + tail && r[1..] == rest && r[0] == first;
    KeysCons(first, tail);
    KeysCons(first, rest);
    DistinctCons(first, tail);
    DistinctCons(first, rest);
  }

  /** `GROUP BY key` with `SUM(amount)`: distinct keys, exactly the keys of the rows, each
      group holding the sum of its key's amounts, and nothing lost or counted twice. */
  function GroupSums<K(==,!new)>(ps: seq<(K, real)>): (r: seq<Group<K>>)
    ensures Distinct(r)
    ensures Keys(r) == set p | p in ps :: p.0
    ensures forall x :: AmountOf(r, x) == SumWhere(ps, x)
    ensures Total(r) == SumAll(ps)
  {
    if |ps| == 0 then []
    else
      var init := ps[..|ps| - 1];
      var last := ps[|ps| - 1];
      assert ps == init + [last];
      assert (set p | p in ps :: p.0) == (set p | p in init :: p.0) + {last.0};
      AddTo(GroupSums(init), last.0, last.1)
  }
}
