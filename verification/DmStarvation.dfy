/** A row that is due and never taken: when more rows are due than a pass takes,
    nothing in the query favours the old ones. */
module DmStarvation {
  import opened Bytes
  import opened Basics
  import opened DmMessages
  import opened Outbox
  import opened DmRuns
  import opened DmSettlement

  /** `n` keys from `from` on, queued for one stored message and other hubs. */
  function Arrivals(from: nat, n: nat, id: Id, now: int): seq<Step> {
    if n == 0 then [] else Arrivals(from, n - 1, id, now) + [Enqueue(from + n - 1, id, now)]
  }

  function KeysFrom(from: nat, n: nat): (ks: seq<nat>)
    ensures |ks| == n && Distinct(ks) && forall i :: 0 <= i < n ==> ks[i] == from + i
  {
    seq(n, i => from + i)
  }

  function Added(rows: Table, from: nat, n: nat, id: Id, now: int): Table {
    map k | k in rows.Keys + Keys(KeysFrom(from, n)) :: if k in rows then rows[k] else Row(id, 0, now, None)
  }

  lemma EnqueueIs(h: Hub, k: nat, id: Id, now: int)
    requires k !in h.outbox && id in h.t.messages
    ensures var st := Enqueue(k, id, now);
            && Lawful(h, [st])
            && Run(h, [st]) == h.(outbox := h.outbox[k := Row(id, 0, now, None)], used := h.used + {k})
  {
    var st := Enqueue(k, id, now);
    FirstThen(h, st, []);
    assert [st] + [] == [st];
  }

  /** `g` is `h` with these rows arrived. */
  predicate Arrived(h: Hub, g: Hub, from: nat, n: nat, id: Id, now: int) {
    && g == h.(outbox := Added(h.outbox, from, n, id, now), used := g.used)
    && forall k :: k in g.used ==> k < from + n
  }

  lemma NoneArrived(h: Hub, from: nat, id: Id, now: int)
    requires forall k :: k in h.used ==> k < from
    ensures Arrived(h, h, from, 0, id, now)
  {
    assert Added(h.outbox, from, 0, id, now) == h.outbox;
  }

  lemma OneArrived(h: Hub, g: Hub, from: nat, n: nat, id: Id, now: int)
    requires n > 0 && Arrived(h, g, from, n - 1, id, now) && forall k :: k in h.outbox ==> k < from
    ensures var k := from + n - 1;
            k !in g.outbox
            && Arrived(h, g.(outbox := g.outbox[k := Row(id, 0, now, None)], used := g.used + {k}), from, n, id, now)
  {
    AddedOne(h.outbox, from, n, id, now);
    hide Added;
  }

  lemma {:induction false} ArrivalsAdd(h: Hub, from: nat, n: nat, id: Id, now: int)
    requires id in h.t.messages && forall k :: k in h.used ==> k < from
    requires h.outbox.Keys <= h.used
    ensures Lawful(h, Arrivals(from, n, id, now))
    ensures Arrived(h, Run(h, Arrivals(from, n, id, now)), from, n, id, now)
    decreases n
  {
    if n == 0 {
      NoneArrived(h, from, id, now);
    } else {
      var a, k := Arrivals(from, n - 1, id, now), from + n - 1;
      ArrivalsAdd(h, from, n - 1, id, now);
      assert forall x :: x in h.outbox ==> x in h.used;
      var g := Run(h, a);
      assert g.t == h.t;
      hide Arrived, Run, Lawful;
      OneArrived(h, g, from, n, id, now);
      EnqueueIs(g, k, id, now);
      RunOn(h, a, [Enqueue(k, id, now)]);
    }
  }

  lemma AddedOne(rows: Table, from: nat, n: nat, id: Id, now: int)
    requires n > 0 && forall k :: k in rows ==> k < from
    ensures from + n - 1 !in Added(rows, from, n - 1, id, now)
    ensures Added(rows, from, n, id, now) == Added(rows, from, n - 1, id, now)[from + n - 1 := Row(id, 0, now, None)]
  {
    var ks, fewer := KeysFrom(from, n), KeysFrom(from, n - 1);
    assert ks == fewer + [from + n - 1];
  }

  /** No step of these is a query. */
  predicate Quiet(sts: seq<Step>) {
    forall i :: 0 <= i < |sts| ==> !sts[i].Query?
  }

  lemma {:induction false} ArrivalsAreQuiet(from: nat, n: nat, id: Id, now: int)
    ensures Quiet(Arrivals(from, n, id, now))
  {
    if n > 0 {
      ArrivalsAreQuiet(from, n - 1, id, now);
    }
  }

  lemma {:induction false} HandlesAreQuiet(json: Json, accepts: nat -> bool, ks: seq<nat>)
    ensures Quiet(Handles(json, accepts, ks))
    decreases |ks|
  {
    if ks != [] {
      HandlesAreQuiet(json, accepts, ks[1..]);
    }
  }

  lemma {:induction false} QuietIsPolled(sts: seq<Step>, since: int, gap: int)
    requires Quiet(sts)
    ensures Polled(sts, since, gap) && LastQuery(sts, since) == since
    decreases |sts|
  {
    if sts != [] {
      QuietIsPolled(sts[1..], since, gap);
    }
  }

  lemma {:induction false} PolledOn(a: seq<Step>, b: seq<Step>, since: int, gap: int)
    ensures Polled(a + b, since, gap) <==> Polled(a, since, gap) && Polled(b, LastQuery(a, since), gap)
    ensures LastQuery(a + b, since) == LastQuery(b, LastQuery(a, since))
    decreases |a|
  {
    if a == [] {
      assert a + b == b;
    } else {
      assert (a + b)[0] == a[0] && (a + b)[1..] == a[1..] + b;
      PolledOn(a[1..], b, if a[0].Query? then a[0].now else since, gap);
    }
  }

  /** A reader of everything. */
  function Reader(): Json {
    Json(e => [], s => Some(0), s => Some(0))
  }

  /** A hundred new rows arrive, a pass takes just those, and all are accepted. */
  function Round(from: nat, id: Id, now: int): seq<Step> {
    Arrivals(from, LIMIT, id, now) + ([Query(now, KeysFrom(from, LIMIT))] + Handles(Reader(), k => true, KeysFrom(from, LIMIT)))
  }

  lemma NewRowsFillTheBatch(rows: Table, from: nat, id: Id, now: int, k: nat)
    requires (forall x :: x in rows ==> x < from) && k in rows && DueAt(rows[k], now)
    ensures IsBatch(KeysFrom(from, LIMIT), Added(rows, from, LIMIT, id, now), now)
    ensures |Due(Added(rows, from, LIMIT, id, now), now)| > LIMIT
  {
    var all, ks := Added(rows, from, LIMIT, id, now), KeysFrom(from, LIMIT);
    var new_ := Keys(ks);
    assert new_ + {k} <= Due(all, now);
    KeysCount(ks);
    assert k !in new_;
    SubsetCount(new_ + {k}, Due(all, now));
  }

  lemma {:induction false} KeysCount(ks: seq<nat>)
    requires Distinct(ks)
    ensures |Keys(ks)| == |ks|
    decreases |ks|
  {
    if ks == [] {
      assert Keys(ks) == {};
    } else {
      KeysCount(ks[1..]);
      assert ks == [ks[0]] + ks[1..];
      assert Keys(ks) == Keys(ks[1..]) + {ks[0]};
    }
  }

  lemma {:induction false} SubsetCount(a: set<nat>, b: set<nat>)
    requires a <= b
    ensures |a| <= |b|
    decreases |a|
  {
    if a != {} {
      var x :| x in a;
      SubsetCount(a - {x}, b - {x});
    }
  }

  lemma NewRowsLeave(rows: Table, from: nat, id: Id, now: int, t: Tables)
    requires (forall x :: x in rows ==> x < from) && LoadEnvelope(t, Reader(), id).Ready?
    ensures var all := Added(rows, from, LIMIT, id, now);
            Settled(all, Keys(KeysFrom(from, LIMIT)), World(all, t, Reader(), k => true), now) == rows
  {
    var all := Added(rows, from, LIMIT, id, now);
    var world := World(all, t, Reader(), k => true);
    forall k | k in KeysFrom(from, LIMIT) ensures k in all && k !in rows && world(k).Delivered? {
      var i :| 0 <= i < LIMIT && KeysFrom(from, LIMIT)[i] == k;
      assert k == from + i && k in Keys(KeysFrom(from, LIMIT));
      assert all[k] == Row(id, 0, now, None);
      assert OutcomeOf(t, Reader(), id, true).Delivered?;
      assert world(k) == OutcomeOf(t, Reader(), id, true);
    }
    hide LoadEnvelope, World;
  }

  /** The pass over the rows that have just arrived. */
  lemma PassLeaves(h: Hub, g: Hub, k: nat, from: nat, now: int)
    requires Inv(h) && Inv(g) && k in h.outbox && DueAt(h.outbox[k], now) && g.hand.todo == []
    requires (forall x :: x in h.used ==> x < from) && Arrived(h, g, from, LIMIT, h.outbox[k].subject, now)
    ensures var ks := KeysFrom(from, LIMIT);
            var sts := [Query(now, ks)] + Handles(Reader(), k => true, ks);
            && Lawful(g, sts) && Run(g, sts).outbox == h.outbox && Run(g, sts).hand.todo == []
            && Run(g, sts).used == g.used
  {
    var id, ks := h.outbox[k].subject, KeysFrom(from, LIMIT);
    assert SaneRow(h, h.outbox[k]);
    NewRowsFillTheBatch(h.outbox, from, id, now, k);
    var q := Query(now, ks);
    NextKeepsInv(g, q);
    HandlesSettle(Next(g, q), Reader(), k => true);
    StoredMessagesLoad(h, Reader(), id);
    LoadMeans(h.t, Reader(), id);
    NewRowsLeave(h.outbox, from, id, now, h.t);
    FirstThen(g, q, Handles(Reader(), k => true, ks));
    hide Inv, Run, Lawful, Added, World, Settled, IsBatch, Handles, KeysFrom, LoadEnvelope;
  }

  /** Such a round leaves the queue as it was. */
  lemma RoundLeaves(h: Hub, k: nat, from: nat, now: int)
    requires Inv(h) && h.hand.todo == [] && k in h.outbox && DueAt(h.outbox[k], now)
    requires forall x :: x in h.used ==> x < from
    ensures var sts := Round(from, h.outbox[k].subject, now);
            && Lawful(h, sts) && Run(h, sts).outbox == h.outbox && Run(h, sts).hand.todo == []
            && forall x :: x in Run(h, sts).used ==> x < from + LIMIT
  {
    var id := h.outbox[k].subject;
    assert SaneRow(h, h.outbox[k]);
    ArrivalsAdd(h, from, LIMIT, id, now);
    var a := Arrivals(from, LIMIT, id, now);
    RunKeepsInv(h, a);
    PassLeaves(h, Run(h, a), k, from, now);
    hide Inv, Run, Lawful, Added, Handles, Arrivals, KeysFrom, DueAt;
    RunOn(h, a, [Query(now, KeysFrom(from, LIMIT))] + Handles(Reader(), k => true, KeysFrom(from, LIMIT)));
  }

  lemma RoundIsPolled(from: nat, id: Id, now: int, since: int, gap: int)
    requires since <= now <= since + gap
    ensures Polled(Round(from, id, now), since, gap) && LastQuery(Round(from, id, now), since) == now
  {
    var a, q, rest := Arrivals(from, LIMIT, id, now), Query(now, KeysFrom(from, LIMIT)), Handles(Reader(), k => true, KeysFrom(from, LIMIT));
    ArrivalsAreQuiet(from, LIMIT, id, now);
    HandlesAreQuiet(Reader(), k => true, KeysFrom(from, LIMIT));
    QuietIsPolled(a, since, gap);
    QuietIsPolled(rest, now, gap);
    PolledOn(a, [q] + rest, since, gap);
    PolledOn([q], rest, since, gap);
    assert [q][1..] == [];
    hide Handles, Arrivals, KeysFrom, Quiet;
  }

  /** Whatever the queue holds, a due row can wait for as many passes as one likes:
      polled every ten seconds, each pass full, each delivery accepted. */
  lemma {:induction false} DueRowCanStarve(h: Hub, k: nat, now: int, since: int, n: nat) returns (sts: seq<Step>)
    requires Inv(h) && h.hand.todo == [] && k in h.outbox && DueAt(h.outbox[k], now)
    requires since <= now <= since + 10
    ensures Lawful(h, sts) && Polled(sts, since, 10) && LastQuery(sts, since) >= (if n == 0 then since else now + 10 * (n - 1))
    ensures Run(h, sts).outbox == h.outbox && Run(h, sts).hand.todo == []
    decreases n
  {
    sts := [];
    if n > 0 {
      var from := Above(h.used);
      var id := h.outbox[k].subject;
      var round := Round(from, id, now);
      RoundLeaves(h, k, from, now);
      RoundIsPolled(from, id, now, since, 10);
      RunKeepsInv(h, round);
      var g := Run(h, round);
      hide Inv, Run, Lawful, Polled, LastQuery, Round;
      var rest := DueRowCanStarve(g, k, now + 10, now, n - 1);
      RunOn(h, round, rest);
      PolledOn(round, rest, since, 10);
      sts := round + rest;
    }
  }

  lemma {:induction false} Above(ss: set<nat>) returns (b: nat)
    ensures forall x :: x in ss ==> x < b
    decreases |ss|
  {
    if ss == {} {
      b := 0;
    } else {
      var x :| x in ss;
      var c := Above(ss - {x});
      b := if x < c then c else x + 1;
      forall y | y in ss ensures y < b {
        assert y == x || y in ss - {x};
      }
    }
  }
}
