/** The stable sort of `(pubkey, wrapped key)` pairs by pubkey. */
module KeySort {
  import opened Bytes
  import opened WireFields

  /** Strings compare byte by byte; a proper prefix comes first. */
  predicate Leq(a: Str, b: Str)
    decreases |a|
  {
    a == [] || (b != [] && (a[0] < b[0] || (a[0] == b[0] && Leq(a[1..], b[1..]))))
  }

  lemma {:induction false} LeqTotal(a: Str, b: Str)
    ensures Leq(a, b) || Leq(b, a)
    decreases |a|
  {
    if a != [] && b != [] && a[0] == b[0] {
      LeqTotal(a[1..], b[1..]);
    }
  }

  lemma {:induction false} LeqAntisymmetric(a: Str, b: Str)
    requires Leq(a, b) && Leq(b, a)
    ensures a == b
    decreases |a|
  {
    if a != [] {
      LeqAntisymmetric(a[1..], b[1..]);
      assert a == [a[0]] + a[1..] && b == [b[0]] + b[1..];
    }
  }

  lemma {:induction false} LeqTransitive(a: Str, b: Str, c: Str)
    requires Leq(a, b) && Leq(b, c)
    ensures Leq(a, c)
    decreases |a|
  {
    if a != [] && a[0] == b[0] && b[0] == c[0] {
      LeqTransitive(a[1..], b[1..], c[1..]);
    }
  }

  /** `a` is a prefix of `b`, or smaller at the first byte that differs. */
  ghost predicate Bytewise(a: Str, b: Str) {
    a <= b || exists i :: 0 <= i < |a| && i < |b| && a[..i] == b[..i] && a[i] < b[i]
  }

  lemma {:induction false} LeqIsBytewise(a: Str, b: Str)
    ensures Leq(a, b) <==> Bytewise(a, b)
    decreases |a|
  {
    if a != [] && b != [] && a[0] == b[0] {
      LeqIsBytewise(a[1..], b[1..]);
      assert a == [a[0]] + a[1..] && b == [b[0]] + b[1..];
      if i :| 0 <= i < |a| && i < |b| && a[..i] == b[..i] && a[i] < b[i] {
        assert i > 0 && a[1..][..i - 1] == a[..i][1..] && b[1..][..i - 1] == b[..i][1..];
        assert a[1..][i - 1] < b[1..][i - 1];
      }
      if i :| 0 <= i < |a| - 1 && i < |b| - 1 && a[1..][..i] == b[1..][..i] && a[1..][i] < b[1..][i] {
        assert a[..i + 1] == [a[0]] + a[1..][..i] && b[..i + 1] == [b[0]] + b[1..][..i];
        assert a[i + 1] < b[i + 1];
      }
    } else if a != [] && b != [] {
      assert a[..0] == b[..0];
      if i :| 0 <= i < |a| && i < |b| && a[..i] == b[..i] && a[i] < b[i] {
        assert i > 0 ==> a[..i][0] == b[..i][0];
      }
    }
  }

  predicate Sorted(ps: seq<Pair>) {
    forall i, j :: 0 <= i < j < |ps| ==> Leq(ps[i].key, ps[j].key)
  }

  /** The pairs with one key, in order. */
  function WithKey(ps: seq<Pair>, k: Str): seq<Pair> {
    if ps == [] then []
    else if ps[0].key == k then [ps[0]] + WithKey(ps[1..], k)
    else WithKey(ps[1..], k)
  }

  /** For every key, the same pairs in the same order. */
  ghost predicate AlikeByKey(a: seq<Pair>, b: seq<Pair>) {
    forall k :: WithKey(a, k) == WithKey(b, k)
  }

  function Insert(p: Pair, ps: seq<Pair>): (r: seq<Pair>)
    ensures |r| == |ps| + 1
    decreases |ps|
  {
    if ps == [] || Leq(p.key, ps[0].key) then [p] + ps else [ps[0]] + Insert(p, ps[1..])
  }

  function SortByKey(ps: seq<Pair>): (r: seq<Pair>)
    ensures |r| == |ps|
    decreases |ps|
  {
    if ps == [] then [] else Insert(ps[0], SortByKey(ps[1..]))
  }

  lemma {:induction false} InsertSorts(p: Pair, ps: seq<Pair>)
    requires Sorted(ps)
    ensures Sorted(Insert(p, ps))
    ensures forall q :: q in Insert(p, ps) ==> q == p || q in ps
    decreases |ps|
  {
    if ps == [] || Leq(p.key, ps[0].key) {
      forall j | 0 <= j < |ps| ensures Leq(p.key, ps[j].key) {
        if j > 0 { LeqTransitive(p.key, ps[0].key, ps[j].key); }
      }
    } else {
      LeqTotal(p.key, ps[0].key);
      InsertSorts(p, ps[1..]);
      var rest := Insert(p, ps[1..]);
      forall j | 0 <= j < |rest| ensures Leq(ps[0].key, rest[j].key) {
        assert rest[j] in rest;
        if rest[j] != p {
          var i :| 0 <= i < |ps[1..]| && ps[1..][i] == rest[j];
        }
      }
    }
  }

  lemma {:induction false} InsertKeepsOrder(p: Pair, ps: seq<Pair>, k: Str)
    ensures WithKey(Insert(p, ps), k) == WithKey([p] + ps, k)
    decreases |ps|
  {
    assert ([p] + ps)[1..] == ps;
    if ps != [] && !Leq(p.key, ps[0].key) {
      var rest := Insert(p, ps[1..]);
      assert ([ps[0]] + rest)[1..] == rest;
      InsertKeepsOrder(p, ps[1..], k);
      assert ([p] + ps[1..])[1..] == ps[1..];
      LeqTotal(p.key, ps[0].key);
      assert p.key != ps[0].key;
    }
  }

  /** The sort sorts byte by byte, and keeps the relative order of pairs with one
      key. */
  lemma SortIsStable(ps: seq<Pair>)
    ensures var r := SortByKey(ps); forall i, j :: 0 <= i < j < |r| ==> Bytewise(r[i].key, r[j].key)
    ensures forall k :: WithKey(SortByKey(ps), k) == WithKey(ps, k)
  {
    SortSorts(ps);
    var r := SortByKey(ps);
    forall i, j | 0 <= i < j < |r| ensures Bytewise(r[i].key, r[j].key) {
      LeqIsBytewise(r[i].key, r[j].key);
    }
  }

  lemma {:induction false} SortSorts(ps: seq<Pair>)
    ensures Sorted(SortByKey(ps))
    ensures forall k :: WithKey(SortByKey(ps), k) == WithKey(ps, k)
    decreases |ps|
  {
    if ps != [] {
      SortSorts(ps[1..]);
      InsertSorts(ps[0], SortByKey(ps[1..]));
      forall k ensures WithKey(SortByKey(ps), k) == WithKey(ps, k) {
        InsertKeepsOrder(ps[0], SortByKey(ps[1..]), k);
        assert ([ps[0]] + SortByKey(ps[1..]))[1..] == SortByKey(ps[1..]);
      }
    }
  }

  lemma {:induction false} WithKeyMembers(ps: seq<Pair>, k: Str, p: Pair)
    ensures p in WithKey(ps, k) <==> p in ps && p.key == k
    decreases |ps|
  {
    if ps != [] {
      WithKeyMembers(ps[1..], k, p);
      assert ps == [ps[0]] + ps[1..];
    }
  }

  /** A sorted sequence is determined by the pairs of each key. */
  lemma {:induction false} SortedIsDetermined(a: seq<Pair>, b: seq<Pair>)
    requires Sorted(a) && Sorted(b)
    requires AlikeByKey(a, b)
    ensures a == b
    decreases |a|
  {
    if a != [] || b != [] {
      if b != [] { NonEmptyAlike(a, b); }
      if a != [] { NonEmptyAlike(b, a); }
      SameLeastKey(a, b);
      SameLeastKey(b, a);
      LeqAntisymmetric(a[0].key, b[0].key);
      var k0 := a[0].key;
      assert WithKey(a, k0)[0] == a[0] && WithKey(b, k0)[0] == b[0];
      forall k ensures WithKey(a[1..], k) == WithKey(b[1..], k) {
        assert WithKey(a, k) == WithKey(b, k);
        if k == k0 {
          assert WithKey(a, k)[1..] == WithKey(a[1..], k);
          assert WithKey(b, k)[1..] == WithKey(b[1..], k);
        }
      }
      SortedIsDetermined(a[1..], b[1..]);
      assert a == [a[0]] + a[1..] && b == [b[0]] + b[1..];
    }
  }

  lemma NonEmptyAlike(a: seq<Pair>, b: seq<Pair>)
    requires b != [] && (AlikeByKey(a, b) || AlikeByKey(b, a))
    ensures a != []
  {
    var k := b[0].key;
    WithKeyMembers(b, k, b[0]);
    assert WithKey(a, k) == WithKey(b, k);
  }

  lemma SameLeastKey(a: seq<Pair>, b: seq<Pair>)
    requires Sorted(a) && a != [] && b != []
    requires AlikeByKey(a, b)
    ensures Leq(a[0].key, b[0].key)
  {
    var p := b[0];
    WithKeyMembers(b, p.key, p);
    WithKeyMembers(a, p.key, p);
    var i :| 0 <= i < |a| && a[i] == p;
    if i == 0 {
      LeqTotal(p.key, p.key);
    }
  }

  /** Two submissions sort alike exactly when the pairs of each pubkey come in
      the same order in both. */
  lemma SortsAlikeIff(a: seq<Pair>, b: seq<Pair>)
    ensures SortByKey(a) == SortByKey(b) <==> AlikeByKey(a, b)
  {
    SortSorts(a);
    SortSorts(b);
    if SortByKey(a) == SortByKey(b) {
      forall k ensures WithKey(a, k) == WithKey(b, k) {
        assert WithKey(a, k) == WithKey(SortByKey(a), k) == WithKey(b, k);
      }
    } else if AlikeByKey(a, b) {
      SortedIsDetermined(SortByKey(a), SortByKey(b));
    }
  }

  predicate DistinctKeys(ps: seq<Pair>) {
    forall i, j :: 0 <= i < j < |ps| ==> ps[i].key != ps[j].key
  }

  lemma {:induction false} WithKeyOfDistinct(ps: seq<Pair>, k: Str)
    requires DistinctKeys(ps)
    ensures |WithKey(ps, k)| <= 1
    decreases |ps|
  {
    if ps != [] {
      WithKeyOfDistinct(ps[1..], k);
      if ps[0].key == k && WithKey(ps[1..], k) != [] {
        WithKeyMembers(ps[1..], k, WithKey(ps[1..], k)[0]);
      }
    }
  }

  /** With distinct pubkeys the order of submission does not matter. */
  lemma OrderDoesNotMatter(a: seq<Pair>, b: seq<Pair>)
    requires multiset(a) == multiset(b) && DistinctKeys(a) && DistinctKeys(b)
    ensures SortByKey(a) == SortByKey(b)
  {
    forall k ensures WithKey(a, k) == WithKey(b, k) {
      WithKeyOfDistinct(a, k);
      WithKeyOfDistinct(b, k);
      SameMembers(a, b, k);
      SameMembers(b, a, k);
      assert WithKey(a, k) != [] ==> WithKey(a, k)[0] in WithKey(b, k);
      assert WithKey(b, k) != [] ==> WithKey(b, k)[0] in WithKey(a, k);
    }
    SortsAlikeIff(a, b);
  }

  lemma SameMembers(a: seq<Pair>, b: seq<Pair>, k: Str)
    requires multiset(a) == multiset(b)
    ensures forall p :: p in WithKey(a, k) ==> p in WithKey(b, k)
  {
    forall p | p in WithKey(a, k) ensures p in WithKey(b, k) {
      WithKeyMembers(a, k, p);
      WithKeyMembers(b, k, p);
      assert p in multiset(a);
    }
  }

  /** With one pubkey submitted twice it does: the same two recipients in the
      other order are signed as other bytes. */
  lemma OrderMattersForEqualKeys(k: Str, v: Str, w: Str)
    requires v != w
    ensures SortByKey([Pair(k, v), Pair(k, w)]) != SortByKey([Pair(k, w), Pair(k, v)])
  {
    var a, b := [Pair(k, v), Pair(k, w)], [Pair(k, w), Pair(k, v)];
    SortsAlikeIff(a, b);
    assert WithKey(a, k)[0] == Pair(k, v) && WithKey(b, k)[0] == Pair(k, w);
  }
}
