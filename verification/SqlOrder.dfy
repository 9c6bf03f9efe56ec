/** `ORDER BY a, b, id` over a finite set of rows, given as a map from the
    primary key to the row's rank. */
module SqlOrder {

  datatype Rank = Rank(first: int, second: int, id: nat)

  predicate Less(a: Rank, b: Rank) {
    || a.first < b.first
    || (a.first == b.first && a.second < b.second)
    || (a.first == b.first && a.second == b.second && a.id < b.id)
  }

  /** Every row is ranked by its own key last, so no two rows tie. */
  predicate Ranked(q: map<nat, Rank>) {
    forall id :: id in q ==> q[id].id == id
  }

  /** `ids` lists the rows of `s`, each once, in ascending rank. */
  ghost predicate IsOrder(ids: seq<nat>, s: set<nat>, q: map<nat, Rank>)
    requires s <= q.Keys
  {
    && (forall i :: 0 <= i < |ids| ==> ids[i] in s)
    && (forall id :: id in s ==> id in ids)
    && (forall i, j :: 0 <= i < j < |ids| ==> Less(q[ids[i]], q[ids[j]]))
  }

  ghost predicate Least(x: nat, s: set<nat>, q: map<nat, Rank>)
    requires s <= q.Keys
  {
    x in s && forall y :: y in s && y != x ==> Less(q[x], q[y])
  }

  lemma {:induction false} LeastExists(s: set<nat>, q: map<nat, Rank>) returns (x: nat)
    requires Ranked(q) && s <= q.Keys && s != {}
    ensures Least(x, s, q)
    decreases |s|
  {
    x :| x in s;
    if s != {x} {
      assert s == {x} + (s - {x});
      var z := LeastExists(s - {x}, q);
      assert q[z].id != q[x].id;
      if !Less(q[x], q[z]) {
        x := z;
      }
    }
  }

  function First(s: set<nat>, q: map<nat, Rank>): (x: nat)
    requires Ranked(q) && s <= q.Keys && s != {}
    ensures Least(x, s, q)
  {
    assert exists x :: Least(x, s, q) by { var w := LeastExists(s, q); }
    var x :| x in s && forall y :: y in s && y != x ==> Less(q[x], q[y]);
    x
  }

  /** The rows of `s` in ascending rank. */
  function OrderOf(s: set<nat>, q: map<nat, Rank>): (ids: seq<nat>)
    requires Ranked(q) && s <= q.Keys
    ensures IsOrder(ids, s, q)
    decreases |s|
  {
    if s == {} then []
    else
      var x := First(s, q);
      var rest := OrderOf(s - {x}, q);
      OrderCons(x, rest, s, q);
      [x] + rest
  }

  lemma OrderCons(x: nat, rest: seq<nat>, s: set<nat>, q: map<nat, Rank>)
    requires s <= q.Keys && Least(x, s, q) && IsOrder(rest, s - {x}, q)
    ensures IsOrder([x] + rest, s, q)
  {
    hide Less;
    var ids := [x] + rest;
    forall id | id in s ensures id in ids {
      assert id == x || id in rest;
    }
    forall i, j | 0 <= i < j < |ids| ensures Less(q[ids[i]], q[ids[j]]) {
      assert ids[j] == rest[j - 1] && rest[j - 1] in s - {x};
      if i > 0 {
        assert ids[i] == rest[i - 1];
      }
    }
  }

  lemma {:induction false} OrderLength(a: seq<nat>, s: set<nat>, q: map<nat, Rank>)
    requires s <= q.Keys && IsOrder(a, s, q)
    ensures |a| == |s|
    decreases |a|
  {
    if a == [] {
      assert s == {};
    } else {
      OrderTail(a, s, q);
      OrderLength(a[1..], s - {a[0]}, q);
    }
  }

  lemma {:induction false} OrderUnique(a: seq<nat>, b: seq<nat>, s: set<nat>, q: map<nat, Rank>)
    requires s <= q.Keys && IsOrder(a, s, q) && IsOrder(b, s, q)
    ensures a == b
    decreases |a|
  {
    OrderLength(a, s, q);
    OrderLength(b, s, q);
    if a != [] {
      assert a[0] in s && b[0] in s;
      assert a[0] in b && b[0] in a;
      assert a[0] == b[0];
      OrderTail(a, s, q);
      OrderTail(b, s, q);
      OrderUnique(a[1..], b[1..], s - {a[0]}, q);
    }
  }

  lemma OrderTail(a: seq<nat>, s: set<nat>, q: map<nat, Rank>)
    requires s <= q.Keys && IsOrder(a, s, q) && a != []
    ensures IsOrder(a[1..], s - {a[0]}, q)
  {
    forall id | id in s - {a[0]} ensures id in a[1..] {
      assert id in a;
    }
    forall i | 0 <= i < |a| - 1 ensures a[1..][i] in s - {a[0]} {
      assert Less(q[a[0]], q[a[i + 1]]);
    }
  }
}
