/** The retry worker of the direct-message outbox and of the queued membership
    changes. */
module Outbox {
  import opened Bytes
  import opened Basics
  import opened SqlOrder
  import DmMessages

  /** Seconds to wait after the first, second, ... failure. */
  const BACKOFF: seq<int> := [10, 60, 300, 1800, 3600, 21600, 86400]
  const LIMIT: nat := 100
  const MAX_FAILURES: nat := |BACKOFF| + 1

  /** A row of either queue; `subject` is the message, or the change, it carries. */
  datatype Row = Row(subject: nat, attempts: nat, nextAt: int, bounced: Option<int>)

  type Table = map<nat, Row>

  /** How one due row's delivery ends: `Unreadable` is a message that cannot be
      rebuilt, `Missing` one that was deleted, `Aborted` a database error. */
  datatype Outcome = Delivered | Failed | Missing | Unreadable | Aborted

  /** The message is loaded from the tables and, if it can be, sent; `accepted` is
      the other hub's answer. */
  function OutcomeOf(t: DmMessages.Tables, j: DmMessages.Json, id: DmMessages.Id, accepted: bool): Outcome {
    match DmMessages.LoadEnvelope(t, j, id)
    case DbError => Aborted
    case Gone => Missing
    case Unreadable => Unreadable
    case Ready(_) => if accepted then Delivered else Failed
  }

  /** What becomes of each row. */
  function World(rows: Table, t: DmMessages.Tables, j: DmMessages.Json, accepts: nat -> bool): nat -> Outcome {
    k => if k in rows then OutcomeOf(t, j, rows[k].subject, accepts(k)) else Missing
  }

  // ---- One row -------------------------------------------------------------------

  function Fail(r: Row, now: int): Row {
    if r.attempts >= |BACKOFF| then r.(attempts := r.attempts + 1, bounced := Some(now))
    else r.(attempts := r.attempts + 1, nextAt := now + BACKOFF[r.attempts])
  }

  /** The row afterwards; `None` when it is deleted. */
  function Settle(r: Row, o: Outcome, now: int): Option<Row> {
    match o
    case Delivered => None
    case Missing => None
    case Unreadable => Some(r.(bounced := Some(now)))
    case Failed => Some(Fail(r, now))
    case Aborted => Some(r)
  }

  /** A queued membership change: the next attempt is set on a bounce too. */
  function SettleChange(r: Row, delivered: bool, now: int): Option<Row> {
    if delivered then None
    else if r.attempts < |BACKOFF| then Some(r.(attempts := r.attempts + 1, nextAt := now + BACKOFF[r.attempts], bounced := None))
    else Some(r.(attempts := r.attempts + 1, nextAt := now, bounced := Some(now)))
  }

  /** The same attempts, the same bounce, and for a row still in the queue the same
      next attempt. */
  lemma SameStep(r: Row, delivered: bool, now: int)
    requires r.bounced.None?
    ensures var a := Settle(r, if delivered then Delivered else Failed, now);
            var b := SettleChange(r, delivered, now);
            && (a.Some? <==> b.Some?)
            && (a.Some? ==> a.value.attempts == b.value.attempts && a.value.bounced == b.value.bounced)
            && (a.Some? && a.value.bounced.None? ==> a == b)
  {
  }

  predicate DueAt(r: Row, now: int) {
    r.bounced.None? && r.nextAt <= now
  }

  // ---- A batch -------------------------------------------------------------------

  function Due(rows: Table, now: int): set<nat> {
    set k | k in rows && DueAt(rows[k], now)
  }

  /** An answer to the query for due rows: any hundred of them, or all. */
  predicate IsBatch(ks: seq<nat>, rows: Table, now: int) {
    && Distinct(ks)
    && (forall i :: 0 <= i < |ks| ==> ks[i] in rows && DueAt(rows[ks[i]], now))
    && |ks| == if |Due(rows, now)| <= LIMIT then |Due(rows, now)| else LIMIT
  }

  lemma {:induction false} Listed(ss: set<nat>) returns (ks: seq<nat>)
    ensures Distinct(ks) && |ks| == |ss| && forall k :: k in ks <==> k in ss
    decreases |ss|
  {
    if ss == {} {
      ks := [];
    } else {
      var x :| x in ss;
      var rest := Listed(ss - {x});
      ks := [x] + rest;
    }
  }

  /** Some answer to the query is these rows and as many more as fit. */
  lemma BatchOf(rows: Table, now: int, some: set<nat>) returns (ks: seq<nat>)
    requires some <= Due(rows, now) && |some| <= LIMIT
    ensures IsBatch(ks, rows, now) && forall k :: k in some ==> k in ks
    ensures |some| == LIMIT ==> forall k :: k in ks ==> k in some
  {
    var others := Due(rows, now) - some;
    var first := Listed(some);
    var more := Listed(others);
    var n := if |Due(rows, now)| <= LIMIT then |others| else LIMIT - |some|;
    assert |Due(rows, now)| == |some| + |others| by {
      assert Due(rows, now) == some + others && some !! others;
    }
    ks := first + more[..n];
    forall i | 0 <= i < |ks| ensures ks[i] in rows && DueAt(rows[ks[i]], now) {
      assert ks[i] in first || ks[i] in more;
      assert ks[i] in Due(rows, now);
    }
    forall k | k in some ensures k in ks {
      var i :| 0 <= i < |first| && first[i] == k;
      assert ks[i] == k;
    }
    assert |some| == LIMIT ==> more[..n] == [] && ks == first;
    assert |ks| == |some| + n;
    forall i, j | 0 <= i < j < |ks| ensures ks[i] != ks[j] {
      if i < |first| <= j {
        assert ks[i] in some && more[j - |first|] in others;
      }
    }
  }

  lemma {:induction false} SubsetOf(ss: set<nat>, n: nat) returns (sub: set<nat>)
    requires n <= |ss|
    ensures sub <= ss && |sub| == n
    decreases n
  {
    if n == 0 {
      sub := {};
    } else {
      var x :| x in ss;
      var rest := SubsetOf(ss - {x}, n - 1);
      sub := rest + {x};
    }
  }

  lemma {:induction false} ListCovers(ks: seq<nat>, ss: set<nat>)
    requires Distinct(ks) && |ks| == |ss| && forall k :: k in ks ==> k in ss
    ensures forall k :: k in ss ==> k in ks
    decreases |ks|
  {
    if ks != [] {
      var n := |ks| - 1;
      assert ks[n] in ss;
      assert forall k :: k in ks[..n] ==> k in ss - {ks[n]};
      ListCovers(ks[..n], ss - {ks[n]});
      assert ks == ks[..n] + [ks[n]];
    } else {
      assert ss == {};
    }
  }

  /** A due row is in every answer the query may give exactly when no more rows
      are due than an answer holds. */
  lemma TakenByEveryBatchIff(rows: Table, now: int, k: nat)
    requires k in Due(rows, now)
    ensures (forall ks :: IsBatch(ks, rows, now) ==> k in ks) <==> |Due(rows, now)| <= LIMIT
  {
    var due := Due(rows, now);
    if |due| <= LIMIT {
      forall ks | IsBatch(ks, rows, now) ensures k in ks {
        assert forall x :: x in ks ==> x in due;
        ListCovers(ks, due);
      }
    } else {
      assert |due - {k}| == |due| - 1;
      var others := SubsetOf(due - {k}, LIMIT);
      var ks := BatchOf(rows, now, others);
      assert k !in ks;
    }
  }

  function Put(rows: Table, k: nat, r: Option<Row>): Table {
    match r
    case None => rows - {k}
    case Some(x) => rows[k := x]
  }

  /** The rows `done` settled, each by its own outcome. */
  function Settled(rows: Table, done: set<nat>, world: nat -> Outcome, now: int): Table {
    map k | k in rows && (k !in done || Settle(rows[k], world(k), now).Some?) ::
      if k in done then Settle(rows[k], world(k), now).value else rows[k]
  }

  function SettledChanges(rows: Table, done: set<nat>, delivered: nat -> bool, now: int): Table {
    map k | k in rows && (k !in done || !delivered(k)) ::
      if k in done then SettleChange(rows[k], false, now).value else rows[k]
  }

  function Keys(ks: seq<nat>): set<nat> {
    set k | k in ks
  }

  /** How many of the batch are reached: a database error ends the pass there. */
  function Reached(ks: seq<nat>, world: nat -> Outcome): (n: nat)
    ensures n <= |ks|
    ensures forall i :: 0 <= i < n ==> !world(ks[i]).Aborted?
    ensures n < |ks| ==> world(ks[n]).Aborted?
  {
    if ks == [] || world(ks[0]).Aborted? then 0 else 1 + Reached(ks[1..], world)
  }

  function ChangeRanks(rows: Table): (q: map<nat, Rank>)
    ensures q.Keys == rows.Keys && Ranked(q)
  {
    map k | k in rows :: Rank(0, 0, k)
  }

  /** The due changes, lowest id first, at most a hundred. */
  function ChangeBatch(rows: Table, now: int): seq<nat> {
    var ks := OrderOf(Due(rows, now), ChangeRanks(rows));
    if |ks| <= LIMIT then ks else ks[..LIMIT]
  }

  function DueBefore(rows: Table, now: int, k: nat): set<nat> {
    set j | j in rows && j < k && rows[j].bounced.None? && rows[j].nextAt <= now
  }

  /** Due, with fewer than a hundred due rows of smaller id. */
  predicate AmongFirst(rows: Table, now: int, k: nat) {
    k in rows && rows[k].bounced.None? && rows[k].nextAt <= now && |DueBefore(rows, now, k)| < 100
  }

  lemma {:induction false} KeysSize(ks: seq<nat>)
    requires Distinct(ks)
    ensures |Keys(ks)| == |ks|
    decreases |ks|
  {
    if ks != [] {
      var n := |ks| - 1;
      KeysSize(ks[..n]);
      assert ks == ks[..n] + [ks[n]];
      assert Keys(ks) == Keys(ks[..n]) + {ks[n]};
    }
  }

  /** In an ascending list the elements below the `i`-th are the `i` before it. */
  lemma PrefixIsSmaller(ks: seq<nat>, i: nat)
    requires i < |ks| && forall a, b :: 0 <= a < b < |ks| ==> ks[a] < ks[b]
    ensures (set j | j in Keys(ks) && j < ks[i]) == Keys(ks[..i]) && |Keys(ks[..i])| == i
  {
    KeysSize(ks[..i]);
    forall j | j in Keys(ks) && j < ks[i] ensures j in Keys(ks[..i]) {
      var x :| 0 <= x < |ks| && ks[x] == j;
      assert x < i;
      assert ks[..i][x] == j;
    }
  }

  lemma DueBelow(rows: Table, now: int, k: nat)
    ensures (set j | j in Due(rows, now) && j < k) == DueBefore(rows, now, k)
  {
  }

  lemma AmongFirstIff(rows: Table, now: int, ks: seq<nat>, i: nat)
    requires i < |ks| && Keys(ks) == Due(rows, now) && forall a, b :: 0 <= a < b < |ks| ==> ks[a] < ks[b]
    ensures AmongFirst(rows, now, ks[i]) <==> i < 100
  {
    assert ks[i] in Keys(ks);
    assert ks[i] in rows && DueAt(rows[ks[i]], now);
    PrefixIsSmaller(ks, i);
    assert DueBefore(rows, now, ks[i]) == Keys(ks[..i]) by {
      DueBelow(rows, now, ks[i]);
      hide DueBefore;
      assert (set j | j in Keys(ks) && j < ks[i]) == (set j | j in Due(rows, now) && j < ks[i]);
    }
  }

  lemma FirstHundred(rows: Table, now: int)
    ensures forall k :: k in Keys(ChangeBatch(rows, now)) <==> AmongFirst(rows, now, k)
  {
    var ks := OrderOf(Due(rows, now), ChangeRanks(rows));
    forall i, j | 0 <= i < j < |ks| ensures ks[i] < ks[j] {
      assert Less(ChangeRanks(rows)[ks[i]], ChangeRanks(rows)[ks[j]]);
    }
    assert Keys(ks) == Due(rows, now);
    forall i | 0 <= i < |ks| ensures AmongFirst(rows, now, ks[i]) <==> i < 100 {
      AmongFirstIff(rows, now, ks, i);
    }
    hide AmongFirst;
    forall k | AmongFirst(rows, now, k) ensures k in Keys(ChangeBatch(rows, now)) {
      AmongFirstIsDue(rows, now, k);
      var i :| 0 <= i < |ks| && ks[i] == k;
      assert ChangeBatch(rows, now)[i] == k;
    }
    forall k | k in Keys(ChangeBatch(rows, now)) ensures AmongFirst(rows, now, k) {
      var i :| 0 <= i < |ChangeBatch(rows, now)| && ChangeBatch(rows, now)[i] == k;
      assert ks[i] == k;
    }
  }

  lemma AmongFirstIsDue(rows: Table, now: int, k: nat)
    requires AmongFirst(rows, now, k)
    ensures k in Due(rows, now)
  {
  }

  /** What the settled rows are, one by one. */
  lemma SettledChangesAt(rows: Table, done: set<nat>, delivered: nat -> bool, now: int)
    ensures forall k :: k in rows ==>
              var after := SettledChanges(rows, done, delivered, now);
              if k in done then
                (k !in after <==> delivered(k)) && (k in after ==> after[k].attempts == rows[k].attempts + 1)
              else k in after && after[k] == rows[k]
  {
  }

  class Worker {
    var outbox: Table
    var changes: Table
    var tables: DmMessages.Tables

    /** One pass. `due` is what the query returned. A row that was not reached
        is untouched; every row that was is settled by what its own message
        loads as and how its own delivery ends. */
    method Tick(now: int, due: seq<nat>, json: DmMessages.Json, accepts: nat -> bool, delivered: nat -> bool)
      returns (ok: bool)
      requires IsBatch(due, outbox, now)
      modifies this
      ensures tables == old(tables)
      ensures var world := World(old(outbox), tables, json, accepts);
              && (ok <==> Reached(due, world) == |due|)
              && outbox == Settled(old(outbox), Keys(due[..Reached(due, world)]), world, now)
      ensures changes == if ok then SettledChanges(old(changes), Keys(ChangeBatch(old(changes), now)), delivered, now)
                         else old(changes)
    {
      ghost var world := World(outbox, tables, json, accepts);
      var i := 0;
      assert outbox == Settled(outbox, Keys(due[..0]), world, now);
      hide Settled, Settle, Put, Keys, World, Reached, SettledChanges, ChangeBatch;
      while i < |due|
        invariant i <= |due| && forall j :: 0 <= j < i ==> !world(due[j]).Aborted?
        invariant outbox == Settled(old(outbox), Keys(due[..i]), world, now)
        invariant changes == old(changes) && tables == old(tables)
      {
        var k := due[i];
        SettledPush(old(outbox), due, i, world, now);
        SameWorldAt(old(outbox), outbox, tables, json, accepts, k);
        var stop := Attempt(k, now, json, accepts);
        if stop {
          ReachedIs(due, world, i);
          return false;
        }
        i := i + 1;
      }
      ReachedIs(due, world, i);
      assert due[..i] == due;
      TickMemberChanges(now, delivered);
      ok := true;
    }

    /** One due row: load its message, send it, record how that ended. */
    method Attempt(k: nat, now: int, json: DmMessages.Json, accepts: nat -> bool) returns (stop: bool)
      requires k in outbox
      modifies this
      ensures tables == old(tables) && changes == old(changes)
      ensures var o := World(old(outbox), tables, json, accepts)(k);
              && (stop <==> o.Aborted?)
              && outbox == if stop then old(outbox) else Put(old(outbox), k, Settle(old(outbox)[k], o, now))
    {
      hide DmMessages.LoadEnvelope;
      stop := false;
      var row := outbox[k];
      match DmMessages.LoadEnvelope(tables, json, row.subject) {
        case DbError => stop := true;
        case Unreadable => outbox := outbox[k := row.(bounced := Some(now))];
        case Gone => outbox := outbox - {k};
        case Ready(dm) =>
          if accepts(k) {
            outbox := outbox - {k};
          } else {
            var next := row.attempts + 1;
            if row.attempts >= |BACKOFF| {
              outbox := outbox[k := row.(attempts := next, bounced := Some(now))];
            } else {
              outbox := outbox[k := row.(attempts := next, nextAt := now + BACKOFF[row.attempts])];
            }
          }
      }
    }

    /** Those due with fewer than a hundred due before them are sent, and deleted or
        put off; all others stay. */
    method TickMemberChanges(now: int, delivered: nat -> bool)
      modifies this
      ensures changes == SettledChanges(old(changes), Keys(ChangeBatch(old(changes), now)), delivered, now)
      ensures forall k :: k in old(changes) ==>
                if AmongFirst(old(changes), now, k) then
                  && (k !in changes <==> delivered(k))
                  && (k in changes ==> changes[k].attempts == old(changes)[k].attempts + 1)
                else k in changes && changes[k] == old(changes)[k]
      ensures outbox == old(outbox) && tables == old(tables)
    {
      FirstHundred(changes, now);
      SettledChangesAt(changes, Keys(ChangeBatch(changes, now)), delivered, now);
      hide SettledChanges, ChangeBatch, Keys, AmongFirst;
      var due := ChangeBatch(changes, now);
      var i := 0;
      NoChangeSettled(changes, due, delivered, now);
      while i < |due|
        invariant i <= |due| && due == ChangeBatch(old(changes), now)
        invariant outbox == old(outbox) && tables == old(tables)
        invariant changes == SettledChanges(old(changes), Keys(due[..i]), delivered, now)
      {
        var k := due[i];
        ChangesPush(old(changes), due, i, delivered, now);
        if delivered(k) {
          changes := changes - {k};
        } else {
          var row := changes[k];
          var (nextAt, bounced) := if row.attempts < |BACKOFF| then (now + BACKOFF[row.attempts], None) else (now, Some(now));
          changes := changes[k := row.(attempts := row.attempts + 1, nextAt := nextAt, bounced := bounced)];
        }
        i := i + 1;
      }
      assert due[..i] == due;
    }
  }

  /** A row's outcome depends on its own message alone. */
  lemma SameWorldAt(
      rows: Table, now: Table, t: DmMessages.Tables, j: DmMessages.Json, accepts: nat -> bool, k: nat)
    requires k in rows && k in now && rows[k] == now[k]
    ensures World(rows, t, j, accepts)(k) == World(now, t, j, accepts)(k)
  {
  }

  lemma SettledPush(rows: Table, due: seq<nat>, i: nat, world: nat -> Outcome, now: int)
    requires i < |due| && Distinct(due) && due[i] in rows
    ensures var before, after := Settled(rows, Keys(due[..i]), world, now), Settled(rows, Keys(due[..i + 1]), world, now);
            && due[i] in before && before[due[i]] == rows[due[i]]
            && after == Put(before, due[i], Settle(rows[due[i]], world(due[i]), now))
  {
    assert due[..i + 1] == due[..i] + [due[i]];
    assert due[i] !in due[..i];
  }

  lemma NoChangeSettled(rows: Table, due: seq<nat>, delivered: nat -> bool, now: int)
    ensures SettledChanges(rows, Keys(due[..0]), delivered, now) == rows
  {
  }

  lemma ChangesPush(rows: Table, due: seq<nat>, i: nat, delivered: nat -> bool, now: int)
    requires due == ChangeBatch(rows, now) && i < |due|
    ensures var before, after := SettledChanges(rows, Keys(due[..i]), delivered, now),
                                 SettledChanges(rows, Keys(due[..i + 1]), delivered, now);
            && due[i] in rows && due[i] in before && before[due[i]] == rows[due[i]]
            && after == Put(before, due[i], SettleChange(rows[due[i]], delivered(due[i]), now))
  {
    assert due[..i + 1] == due[..i] + [due[i]];
    var all := OrderOf(Due(rows, now), ChangeRanks(rows));
    assert due[i] == all[i] && all[i] in Due(rows, now);
    assert due[i] !in due[..i] by {
      forall j | 0 <= j < i ensures due[..i][j] != due[i] {
        assert due[..i][j] == all[j];
        assert Less(ChangeRanks(rows)[all[j]], ChangeRanks(rows)[all[i]]);
      }
    }
  }

  lemma {:induction false} ReachedIs(ks: seq<nat>, world: nat -> Outcome, n: nat)
    requires n <= |ks| && (forall i :: 0 <= i < n ==> !world(ks[i]).Aborted?) && (n < |ks| ==> world(ks[n]).Aborted?)
    ensures Reached(ks, world) == n
    decreases |ks|
  {
    if n > 0 {
      ReachedIs(ks[1..], world, n - 1);
    }
  }

  // ---- Every row is settled in the end -----------------------------------------------

  /** How often a row can still be processed. */
  function Weight(r: Row): nat {
    if r.bounced.Some? then 0 else if r.attempts < MAX_FAILURES then MAX_FAILURES - r.attempts else 1
  }

  ghost function Measure(rows: Table): nat
    decreases |rows|
  {
    if rows == map[] then 0
    else
      var k :| k in rows;
      assert (rows - {k}).Keys == rows.Keys - {k};
      assert |rows| == |rows.Keys| && |rows - {k}| == |(rows - {k}).Keys|;
      Weight(rows[k]) + Measure(rows - {k})
  }

  lemma {:induction false} MeasureWithout(rows: Table, k: nat)
    requires k in rows
    ensures Measure(rows) == Weight(rows[k]) + Measure(rows - {k})
    decreases |rows|
  {
    var p :| p in rows && Measure(rows) == Weight(rows[p]) + Measure(rows - {p});
    if p != k {
      assert (rows - {p}).Keys == rows.Keys - {p} && (rows - {k}).Keys == rows.Keys - {k};
      assert |rows - {p}| == |rows.Keys| - 1 && |rows - {k}| == |rows.Keys| - 1;
      MeasureWithout(rows - {p}, k);
      MeasureWithout(rows - {k}, p);
      assert rows - {p} - {k} == rows - {k} - {p};
    }
  }

  lemma SettleLowers(r: Row, o: Outcome, now: int)
    requires r.bounced.None? && !o.Aborted?
    ensures (match Settle(r, o, now) case None => 0 case Some(x) => Weight(x)) < Weight(r)
  {
  }

  lemma PutLowers(rows: Table, k: nat, o: Outcome, now: int)
    requires k in rows && rows[k].bounced.None? && !o.Aborted?
    ensures Measure(Put(rows, k, Settle(rows[k], o, now))) < Measure(rows)
  {
    SettleLowers(rows[k], o, now);
    MeasureWithout(rows, k);
    var r := Settle(rows[k], o, now);
    if r.Some? {
      var after := rows[k := r.value];
      MeasureWithout(after, k);
      assert after - {k} == rows - {k};
    }
  }

  /** Each processed row lowers what is left to do by at least one. */
  lemma {:induction false} BatchLowers(rows: Table, due: seq<nat>, n: nat, world: nat -> Outcome, now: int)
    requires Distinct(due) && n <= |due|
    requires forall i :: 0 <= i < n ==> due[i] in rows && rows[due[i]].bounced.None? && !world(due[i]).Aborted?
    ensures Measure(Settled(rows, Keys(due[..n]), world, now)) + n <= Measure(rows)
    decreases n
  {
    if n == 0 {
      assert Settled(rows, Keys(due[..0]), world, now) == rows;
    } else {
      BatchLowers(rows, due, n - 1, world, now);
      SettledPush(rows, due, n - 1, world, now);
      PutLowers(Settled(rows, Keys(due[..n - 1]), world, now), due[n - 1], world(due[n - 1]), now);
    }
  }

  /** A pass of the worker: when, which rows, and how each delivery ends. */
  datatype Pass = Pass(now: int, due: seq<nat>, world: nat -> Outcome)

  predicate Runs(rows: Table, p: Pass) {
    IsBatch(p.due, rows, p.now) && forall i :: 0 <= i < |p.due| ==> !p.world(p.due[i]).Aborted?
  }

  function After(rows: Table, p: Pass): Table {
    Settled(rows, Keys(p.due), p.world, p.now)
  }

  predicate AllSettled(rows: Table) {
    forall k :: k in rows ==> rows[k].bounced.Some?
  }

  lemma NothingLeft(rows: Table)
    requires Measure(rows) == 0
    ensures AllSettled(rows)
  {
    forall k | k in rows ensures rows[k].bounced.Some? {
      MeasureWithout(rows, k);
    }
  }

  const LONGEST_WAIT: int := 86400

  /** No row waits longer than the longest wait from `at`. */
  predicate WaitsWithin(rows: Table, at: int) {
    forall k :: k in rows && rows[k].bounced.None? ==> rows[k].nextAt <= at + LONGEST_WAIT
  }

  lemma OneLess(m: nat, n: nat, unit: int)
    requires unit >= 0 && m < n
    ensures m * unit + unit <= n * unit
  {
    assert (n - m - 1) * unit >= 0;
    assert n * unit == m * unit + unit + (n - m - 1) * unit;
  }

  lemma {:induction false} SettledWeighsNothing(rows: Table)
    requires AllSettled(rows)
    ensures Measure(rows) == 0
    decreases |rows|
  {
    if rows != map[] {
      var k :| k in rows;
      MeasureWithout(rows, k);
      assert (rows - {k}).Keys == rows.Keys - {k};
      assert |rows - {k}| == |rows.Keys| - 1;
      SettledWeighsNothing(rows - {k});
    }
  }

  // ---- A row that ends the pass ---------------------------------------------------------

  /** A pass with database errors: it stops at the first. */
  function Passed(rows: Table, p: Pass): Table {
    Settled(rows, Keys(p.due[..Reached(p.due, p.world)]), p.world, p.now)
  }

  lemma SettledAt(rows: Table, done: set<nat>, world: nat -> Outcome, now: int, k: nat)
    requires k in rows
    ensures Lookup(Settled(rows, done, world, now), k) == if k in done then Settle(rows[k], world(k), now) else Some(rows[k])
  {
  }

  lemma DueIsChanged(r: Row, o: Outcome, now: int)
    requires DueAt(r, now)
    ensures Settle(r, o, now) == Some(r) <==> o.Aborted?
  {
  }

  lemma IndependentIff(rows: Table, p: Pass)
    requires IsBatch(p.due, rows, p.now)
    ensures Passed(rows, p) == After(rows, p) <==>
            forall i, j :: 0 <= i < j < |p.due| && p.world(p.due[i]).Aborted? ==> p.world(p.due[j]).Aborted?
  {
    var n := Reached(p.due, p.world);
    var short, full := Keys(p.due[..n]), Keys(p.due);
    hide Settled, Settle, DueAt, Reached;
    if Passed(rows, p) == After(rows, p) {
      forall i, j | 0 <= i < j < |p.due| && p.world(p.due[i]).Aborted? ensures p.world(p.due[j]).Aborted? {
        var k := p.due[j];
        assert n <= i;
        assert k in full && k !in short by {
          forall m | 0 <= m < n ensures p.due[..n][m] != k {
          }
        }
        SettledAt(rows, short, p.world, p.now, k);
        SettledAt(rows, full, p.world, p.now, k);
        DueIsChanged(rows[k], p.world(k), p.now);
      }
    } else if forall i, j :: 0 <= i < j < |p.due| && p.world(p.due[i]).Aborted? ==> p.world(p.due[j]).Aborted? {
      AllElseAborted(rows, p, n);
    }
  }

  lemma AllElseAborted(rows: Table, p: Pass, n: nat)
    requires n <= |p.due| && IsBatch(p.due, rows, p.now)
    requires forall j :: n <= j < |p.due| ==> p.world(p.due[j]).Aborted?
    ensures Settled(rows, Keys(p.due[..n]), p.world, p.now) == After(rows, p)
  {
    forall k | k in rows && k in Keys(p.due) && k !in Keys(p.due[..n]) ensures p.world(k).Aborted? {
      forall m | 0 <= m < n ensures p.due[m] != k {
        assert p.due[..n][m] == p.due[m];
      }
    }
    assert Keys(p.due[..n]) <= Keys(p.due);
  }

  function PassedAll(rows: Table, ps: seq<Pass>): Table
    decreases |ps|
  {
    if ps == [] then rows else PassedAll(Passed(rows, ps[0]), ps[1..])
  }

  /** The rows whose message has lost its conversation end a pass, and no others. */
  lemma AbortedIsOrphaned(rows: Table, t: DmMessages.Tables, j: DmMessages.Json, accepts: nat -> bool, k: nat)
    requires k in rows
    ensures World(rows, t, j, accepts)(k).Aborted? <==> DmMessages.Orphaned(t, rows[k].subject)
  {
    DmMessages.LoadMeans(t, j, rows[k].subject);
  }

  /** A pass settles every row by itself exactly when no row whose message has its
      conversation comes after a row whose message has lost it. */
  lemma RowsAreIndependentIff(
      rows: Table, t: DmMessages.Tables, j: DmMessages.Json, accepts: nat -> bool, now: int, due: seq<nat>)
    requires IsBatch(due, rows, now)
    ensures var p := Pass(now, due, World(rows, t, j, accepts));
            Passed(rows, p) == After(rows, p) <==>
            forall a, b :: 0 <= a < b < |due| && DmMessages.Orphaned(t, rows[due[a]].subject) ==>
              DmMessages.Orphaned(t, rows[due[b]].subject)
  {
    var p := Pass(now, due, World(rows, t, j, accepts));
    IndependentIff(rows, p);
    forall i | 0 <= i < |due| ensures p.world(due[i]).Aborted? <==> DmMessages.Orphaned(t, rows[due[i]].subject) {
      AbortedIsOrphaned(rows, t, j, accepts, due[i]);
    }
    hide World, DmMessages.Orphaned;
  }

  /** A message that has lost its conversation ends every pass that meets it
      first: while the query keeps returning it first, nothing is ever sent. */
  lemma {:induction false} OneRowStallsTheQueue(
      rows: Table, t: DmMessages.Tables, j: DmMessages.Json, accepts: nat -> bool, ps: seq<Pass>, k: nat)
    requires k in rows && DmMessages.Orphaned(t, rows[k].subject)
    requires forall i :: 0 <= i < |ps| ==>
               && IsBatch(ps[i].due, rows, ps[i].now) && ps[i].due != [] && ps[i].due[0] == k
               && ps[i].world == World(rows, t, j, accepts)
    ensures PassedAll(rows, ps) == rows
    decreases |ps|
  {
    if ps != [] {
      var p := ps[0];
      AbortedIsOrphaned(rows, t, j, accepts, k);
      assert p.due[..Reached(p.due, p.world)] == [];
      assert Passed(rows, p) == rows;
      OneRowStallsTheQueue(rows, t, j, accepts, ps[1..], k);
    }
  }

  // ---- The schedule of one row ---------------------------------------------------------

  datatype Event = Event(at: int, outcome: Outcome)

  function Lookup(rows: Table, k: nat): Option<Row> {
    if k in rows then Some(rows[k]) else None
  }

  /** The row after its events, and whether each found it due. */
  function RowAfter(r: Option<Row>, es: seq<Event>): Option<Row>
    decreases |es|
  {
    if es == [] then r
    else if r.None? then None
    else RowAfter(Settle(r.value, es[0].outcome, es[0].at), es[1..])
  }

  predicate Timely(r: Option<Row>, es: seq<Event>)
    decreases |es|
  {
    es == [] || (r.Some? && DueAt(r.value, es[0].at) && Timely(Settle(r.value, es[0].outcome, es[0].at), es[1..]))
  }

  /** The waits between failure `a` and failure `a + n`, added up. */
  function Waits(a: nat, n: nat): int
    requires a + n <= |BACKOFF|
    decreases n
  {
    if n == 0 then 0 else BACKOFF[a] + Waits(a + 1, n - 1)
  }

  /** Failures from the `a`-th on, each at least the scheduled wait after the one
      before, and so all of them at least the sum of the waits. */
  predicate Spaced(a: nat, es: seq<Event>)
    requires a + |es| <= MAX_FAILURES
  {
    && (forall i :: 0 <= i < |es| - 1 ==> es[i + 1].at >= es[i].at + BACKOFF[a + i])
    && (es != [] ==> es[|es| - 1].at - es[0].at >= Waits(a, |es| - 1))
  }

  lemma SpacedCons(a: nat, e: Event, es: seq<Event>)
    requires a + 1 + |es| <= MAX_FAILURES && Spaced(a + 1, es)
    requires es != [] ==> es[0].at >= e.at + BACKOFF[a]
    ensures Spaced(a, [e] + es)
  {
    var all := [e] + es;
    if es != [] {
      assert all[|all| - 1] == es[|es| - 1] && Waits(a, |es|) == BACKOFF[a] + Waits(a + 1, |es| - 1);
    }
    hide Waits;
    forall i | 0 <= i < |all| - 1 ensures all[i + 1].at >= all[i].at + BACKOFF[a + i] {
      if i > 0 {
        assert es[i - 1 + 1].at >= es[i - 1].at + BACKOFF[a + 1 + (i - 1)];
      }
    }
  }

  /** A row fails at most eight times, bounced at the eighth; two failures are at
      least the scheduled wait apart, and the whole takes at least its sum: from
      the first failure to the last, 113,770 seconds. */
  lemma {:induction false} FailureSchedule(r: Row, es: seq<Event>)
    requires Timely(Some(r), es) && es != [] && forall i :: 0 <= i < |es| ==> es[i].outcome == Failed
    requires r.attempts <= |BACKOFF|
    ensures r.attempts + |es| <= MAX_FAILURES && Spaced(r.attempts, es)
    ensures RowAfter(Some(r), es).Some? && RowAfter(Some(r), es).value.attempts == r.attempts + |es|
    ensures RowAfter(Some(r), es).value.bounced.Some? <==> r.attempts + |es| == MAX_FAILURES
    ensures |es| == MAX_FAILURES ==> es[|es| - 1].at - es[0].at >= 113_770
    decreases |es|
  {
    var next, rest := Fail(r, es[0].at), es[1..];
    FailWaits(r, es[0].at);
    assert es == [es[0]] + rest && RowAfter(Some(r), es) == RowAfter(Some(next), rest);
    hide Fail, Spaced, Waits;
    if rest != [] {
      assert DueAt(next, rest[0].at);
      FailureSchedule(next, rest);
    } else {
      NoneIsSpaced(r.attempts + 1);
    }
    SpacedCons(r.attempts, es[0], rest);
    SpacedTakes(es);
  }

  lemma NoneIsSpaced(a: nat)
    requires a <= MAX_FAILURES
    ensures Spaced(a, [])
  {
  }

  lemma SpacedTakes(es: seq<Event>)
    ensures |es| == MAX_FAILURES && Spaced(0, es) ==> es[|es| - 1].at - es[0].at >= 113_770
  {
    FullSchedule();
  }

  lemma FailWaits(r: Row, now: int)
    ensures Fail(r, now).attempts == r.attempts + 1
    ensures r.bounced.None? ==> (Fail(r, now).bounced.Some? <==> r.attempts >= |BACKOFF|)
    ensures r.attempts < |BACKOFF| ==> Fail(r, now).nextAt == now + BACKOFF[r.attempts]
  {
  }

  lemma FullSchedule()
    ensures Waits(0, 7) == 113_770
  {
    assert Waits(6, 1) == 86400;
    assert Waits(5, 2) == 21600 + 86400;
    assert Waits(4, 3) == 3600 + Waits(5, 2);
    assert Waits(3, 4) == 1800 + Waits(4, 3);
    assert Waits(2, 5) == 300 + Waits(3, 4);
    assert Waits(1, 6) == 60 + Waits(2, 5);
  }

  /** The same history in the other queue. */
  function ChangeAfter(r: Option<Row>, es: seq<Event>): Option<Row>
    decreases |es|
  {
    if es == [] then r
    else if r.None? then None
    else ChangeAfter(SettleChange(r.value, es[0].outcome.Delivered?, es[0].at), es[1..])
  }

  /** Both queues keep one schedule: through any history of deliveries and failures
      a row is in the one as long as in the other, with the same attempts, the
      same next attempt while it is retried, and bounced at the same failure. */
  lemma {:induction false} SameSchedule(r: Row, es: seq<Event>)
    requires Timely(Some(r), es) && forall i :: 0 <= i < |es| ==> es[i].outcome.Delivered? || es[i].outcome.Failed?
    ensures var a, b := RowAfter(Some(r), es), ChangeAfter(Some(r), es);
            && (a.Some? <==> b.Some?)
            && (a.Some? ==> a.value.attempts == b.value.attempts && a.value.bounced == b.value.bounced)
            && (a.Some? && a.value.bounced.None? ==> a == b)
    decreases |es|
  {
    if es != [] {
      SameStep(r, es[0].outcome.Delivered?, es[0].at);
      var next := Settle(r, es[0].outcome, es[0].at);
      if next.Some? && next.value.bounced.None? {
        SameSchedule(next.value, es[1..]);
      }
    }
  }
}
