/** Every queued row is delivered or bounced in time: the whole queue when nothing
    new arrives, one row of a live queue as long as the worker keeps up. */
module DmSettlement {
  import opened Bytes
  import opened Basics
  import opened DmMessages
  import opened Outbox
  import opened DmRuns

  // ---- What is left to do ------------------------------------------------------------

  /** The row as it will be if the attempt in hand fails. */
  function ProjectedRow(h: Hub, k: nat): Row
    requires k in h.outbox
  {
    if k in h.hand.todo && k in h.hand.read then Rewritten(h.outbox[k], h.hand.read[k], h.hand.now) else h.outbox[k]
  }

  function Projected(h: Hub): Table {
    map k | k in h.outbox :: ProjectedRow(h, k)
  }

  /** All background sends in flight. */
  ghost function Sends(flights: map<nat, Flight>): nat
    decreases |flights|
  {
    if flights == map[] then 0
    else
      var k :| k in flights;
      assert (flights - {k}).Keys == flights.Keys - {k};
      assert |flights| == |flights.Keys| && |flights - {k}| == |(flights - {k}).Keys|;
      flights[k].n + Sends(flights - {k})
  }

  lemma {:induction false} SendsWithout(flights: map<nat, Flight>, k: nat)
    requires k in flights
    ensures Sends(flights) == flights[k].n + Sends(flights - {k})
    decreases |flights|
  {
    var p :| p in flights && Sends(flights) == flights[p].n + Sends(flights - {p});
    if p != k {
      assert (flights - {p}).Keys == flights.Keys - {p} && (flights - {k}).Keys == flights.Keys - {k};
      assert |flights - {p}| == |flights.Keys| - 1 && |flights - {k}| == |flights.Keys| - 1;
      SendsWithout(flights - {p}, k);
      SendsWithout(flights - {k}, p);
      assert flights - {p} - {k} == flights - {k} - {p};
    }
  }

  lemma OneSendLess(flights: map<nat, Flight>, k: nat)
    requires k in flights && flights[k].n > 0
    ensures Sends(Landed(flights, k)) == Sends(flights) - 1
  {
    var after := Landed(flights, k);
    SendsWithout(flights, k);
    SendsWithout(after, k);
    assert after - {k} == flights - {k};
  }

  /** Attempts left beyond those in hand, and what each background send in flight
      can give back. */
  ghost function Potential(h: Hub): nat {
    Measure(Projected(h)) + (MAX_FAILURES - 1) * Sends(h.flights)
  }

  /** The steps once nothing new is queued and no further send is started. */
  predicate Draining(st: Step) {
    st.Query? || st.Handle? || st.SentInBackground? || st.FailedInBackground?
  }

  predicate AllDraining(sts: seq<Step>) {
    forall i :: 0 <= i < |sts| ==> Draining(sts[i])
  }

  function WeightAt(rows: Table, k: nat): nat {
    if k in rows then Weight(rows[k]) else 0
  }

  lemma MeasureOne(a: Table, b: Table, k: nat)
    requires a - {k} == b - {k}
    ensures Measure(a) - WeightAt(a, k) == Measure(b) - WeightAt(b, k)
  {
    if k in a {
      MeasureWithout(a, k);
    } else {
      assert a - {k} == a;
    }
    if k in b {
      MeasureWithout(b, k);
    } else {
      assert b - {k} == b;
    }
  }

  lemma NothingInHand(h: Hub)
    requires h.hand.todo == []
    ensures Projected(h) == h.outbox
  {
  }

  lemma QueryProjects(h: Hub, now: int, due: seq<nat>)
    requires IsBatch(due, h.outbox, now)
    ensures Projected(Next(h, Query(now, due))) == Settled(h.outbox, Keys(due), _ => Failed, now)
  {
    var n := Next(h, Query(now, due));
    forall k | k in h.outbox ensures h.outbox[k].(attempts := h.outbox[k].attempts) == h.outbox[k] {
    }
    hide Fail, IsBatch;
  }

  lemma QueryLowers(h: Hub, st: Step)
    requires Inv(h) && Allowed(h, st) && st.Query?
    ensures Potential(Next(h, st)) + |st.due| <= Potential(h)
  {
    NothingInHand(h);
    QueryProjects(h, st.now, st.due);
    assert st.due[..|st.due|] == st.due;
    BatchLowers(h.outbox, st.due, |st.due|, _ => Failed, st.now);
    hide Measure, Settled, Inv, Projected;
  }

  /** A row that neither changed nor changed hands is projected as before. */
  lemma SameProjection(h: Hub, n: Hub, k: nat)
    requires k in h.outbox && k in n.outbox && n.outbox[k] == h.outbox[k]
    requires n.hand.read == h.hand.read && n.hand.now == h.hand.now && (k in n.hand.todo <==> k in h.hand.todo)
    ensures ProjectedRow(n, k) == ProjectedRow(h, k)
  {
  }

  /** A step about one row changes nothing projected for the others. */
  lemma ProjectedButOne(h: Hub, n: Hub, k: nat)
    requires forall x :: x != k ==> (x in n.outbox <==> x in h.outbox)
    requires forall x :: x != k && x in n.outbox ==> n.outbox[x] == h.outbox[x]
    requires n.hand.read == h.hand.read && n.hand.now == h.hand.now
    requires forall x :: x != k ==> (x in n.hand.todo <==> x in h.hand.todo)
    ensures Projected(n) - {k} == Projected(h) - {k}
  {
    forall x | x != k && x in n.outbox ensures x in h.outbox && ProjectedRow(n, x) == ProjectedRow(h, x) {
      SameProjection(h, n, x);
    }
    hide ProjectedRow;
  }

  lemma HandleProjects(h: Hub, st: Step)
    requires Inv(h) && st.Handle? && h.hand.todo != []
    ensures var n, k := Next(h, st), h.hand.todo[0];
            && Projected(n) - {k} == Projected(h) - {k} && n.flights == h.flights
            && (k in n.outbox ==> k in h.outbox && (ProjectedRow(n, k) == ProjectedRow(h, k) || ProjectedRow(n, k).bounced.Some?))
  {
    var n, k, todo := Next(h, st), h.hand.todo[0], h.hand.todo;
    HandleGoesOn(h, st);
    HandledIsOne(h, OutcomeIn(h, st));
    assert todo == [k] + todo[1..] && k !in todo[1..];
    assert k in todo && HeldRow(h, k);
    HandleProjectsOwn(h, OutcomeIn(h, st));
    hide OutcomeIn, Inv, HeldRow, Handled;
    ProjectedButOne(h, n, k);
  }

  lemma HandleProjectsOwn(h: Hub, o: Outcome)
    requires h.hand.todo != [] && !o.Aborted? && h.hand.todo[0] !in h.hand.todo[1..] && h.hand.todo[0] in h.hand.read
    ensures var n, k := Handled(h, o), h.hand.todo[0];
            k in n.outbox ==> k in h.outbox && (ProjectedRow(n, k) == ProjectedRow(h, k) || ProjectedRow(n, k).bounced.Some?)
  {
    assert h.hand.todo[0] in h.hand.todo;
    hide Rewritten;
  }

  lemma EndProjects(h: Hub, st: Step)
    requires st.SentInBackground? || st.FailedInBackground?
    requires Allowed(h, st) && Inv(h)
    ensures var n, k := Next(h, st), st.k;
            && Projected(n) - {k} == Projected(h) - {k} && n.flights == Landed(h.flights, k)
            && (k in n.outbox ==>
                  && k in h.outbox
                  && var a, b := ProjectedRow(h, k), ProjectedRow(n, k);
                     || (k in h.hand.todo && Weight(b) == Weight(a) && b.bounced == a.bounced && (b.bounced.None? ==> b.nextAt == a.nextAt))
                     || (k !in h.hand.todo && b.bounced == a.bounced && b.attempts == 1 && b.nextAt == h.flights[k].at + BACKOFF[0]))
  {
    var n, k := Next(h, st), st.k;
    assert k in h.hand.todo ==> HeldRow(h, k) && SaneRow(h, h.hand.read[k]);
    hide Inv, DueAt, SaneRow;
    ProjectedButOne(h, n, k);
    hide Projected;
  }

  lemma HandleLowers(h: Hub, st: Step)
    requires Inv(h) && st.Handle? && h.hand.todo != []
    ensures Potential(Next(h, st)) <= Potential(h)
  {
    var n, k := Next(h, st), h.hand.todo[0];
    HandleProjects(h, st);
    hide Inv, Next, ProjectedRow, Measure;
    MeasureOne(Projected(n), Projected(h), k);
  }

  lemma EndLowers(h: Hub, st: Step)
    requires Inv(h) && Allowed(h, st) && (st.SentInBackground? || st.FailedInBackground?)
    ensures Potential(Next(h, st)) <= Potential(h)
  {
    var n, k := Next(h, st), st.k;
    EndProjects(h, st);
    OneSendLess(h.flights, k);
    hide Inv, Next, Allowed, ProjectedRow, Measure;
    MeasureOne(Projected(n), Projected(h), k);
  }

  lemma StepLowers(h: Hub, st: Step)
    requires Inv(h) && Allowed(h, st) && Draining(st)
    ensures Potential(Next(h, st)) <= Potential(h) - (if st.Query? && st.due != [] then 1 else 0)
  {
    hide Potential, Next, Inv;
    if st.Query? {
      QueryLowers(h, st);
    } else if st.Handle? {
      HandleLowers(h, st);
    } else {
      EndLowers(h, st);
    }
  }

  lemma NothingLeftToDo(h: Hub)
    requires h.hand.todo == [] && Potential(h) == 0
    ensures AllSettled(h.outbox)
  {
    NothingInHand(h);
    NothingLeft(h.outbox);
  }

  /** The passes that found something due. */
  function Busy(sts: seq<Step>): nat {
    if sts == [] then 0 else (if sts[0].Query? && sts[0].due != [] then 1 else 0) + Busy(sts[1..])
  }

  /** Whatever the other hubs answer and whenever background sends end, after as
      many passes that found something as there are attempts left, every row is
      delivered or bounced. */
  lemma {:induction false} EveryRowIsSettled(h: Hub, sts: seq<Step>)
    requires Inv(h) && Lawful(h, sts) && AllDraining(sts)
    requires Run(h, sts).hand.todo == [] && Busy(sts) >= Potential(h)
    ensures AllSettled(Run(h, sts).outbox)
    decreases |sts|
  {
    if sts == [] {
      NothingLeftToDo(h);
    } else {
      StepLowers(h, sts[0]);
      NextKeepsInv(h, sts[0]);
      hide Inv, Potential, Next, Allowed;
      EveryRowIsSettled(Next(h, sts[0]), sts[1..]);
    }
  }

  // ---- In time -----------------------------------------------------------------------------

  /** The passes follow each other, from `since` on, at most `gap` seconds apart. */
  predicate Polled(sts: seq<Step>, since: int, gap: int)
    decreases |sts|
  {
    sts != [] ==>
      if sts[0].Query? then since <= sts[0].now <= since + gap && Polled(sts[1..], sts[0].now, gap)
      else Polled(sts[1..], since, gap)
  }

  function LastQuery(sts: seq<Step>, since: int): int
    decreases |sts|
  {
    if sts == [] then since else LastQuery(sts[1..], if sts[0].Query? then sts[0].now else since)
  }

  /** No row, and no background send that fails, waits beyond the longest wait
      from `at`. */
  predicate Horizon(h: Hub, at: int) {
    && WaitsWithin(Projected(h), at)
    && forall k :: k in h.flights && h.flights[k].n > 0 ==> h.flights[k].at + BACKOFF[0] <= at + LONGEST_WAIT
  }

  lemma FailWaitsAtMost(r: Row, now: int)
    ensures Fail(r, now).bounced.Some? || Fail(r, now).nextAt <= now + LONGEST_WAIT
  {
  }

  lemma HorizonMoves(h: Hub, st: Step, at: int)
    requires Inv(h) && Allowed(h, st) && Draining(st) && Horizon(h, at) && (st.Query? ==> at <= st.now)
    ensures Horizon(Next(h, st), if st.Query? && st.due != [] then st.now else at)
  {
    var n := Next(h, st);
    var later := if st.Query? && st.due != [] then st.now else at;
    if st.Query? {
      NothingInHand(h);
    } else if st.Handle? {
      HandleProjects(h, st);
    } else {
      EndProjects(h, st);
    }
    forall k | k in Projected(n) && Projected(n)[k].bounced.None? ensures Projected(n)[k].nextAt <= later + LONGEST_WAIT {
      if st.Query? {
        if k in st.due {
          FailWaitsAtMost(h.outbox[k].(attempts := h.outbox[k].attempts), st.now);
        }
      } else if k != (if st.Handle? then h.hand.todo[0] else st.k) {
        assert k in Projected(n) - {if st.Handle? then h.hand.todo[0] else st.k};
        assert Projected(n)[k] == Projected(h)[k];
      } else {
        assert k in Projected(h);
      }
    }
    hide Inv, Fail, OutcomeIn, Handled, ProjectedRow;
  }

  lemma IdleIsShort(h: Hub, st: Step, at: int)
    requires Allowed(h, st) && st.Query? && st.due == [] && !AllSettled(h.outbox) && Horizon(h, at)
    ensures st.now < at + LONGEST_WAIT
  {
    NothingInHand(h);
    var k :| k in h.outbox && h.outbox[k].bounced.None?;
    assert k !in Due(h.outbox, st.now) by {
      assert Due(h.outbox, st.now) == {};
    }
  }

  lemma NextKeepsSettled(h: Hub, st: Step)
    requires Inv(h) && Allowed(h, st) && Draining(st) && AllSettled(h.outbox) && h.hand.todo == []
    ensures AllSettled(Next(h, st).outbox) && Next(h, st).hand.todo == []
  {
    if st.Query? {
      assert Due(h.outbox, st.now) == {};
    }
  }

  lemma {:induction false} SettledStaysOn(h: Hub, sts: seq<Step>)
    requires Inv(h) && Lawful(h, sts) && AllDraining(sts) && AllSettled(h.outbox) && h.hand.todo == []
    ensures AllSettled(Run(h, sts).outbox)
    decreases |sts|
  {
    if sts != [] {
      NextKeepsSettled(h, sts[0]);
      NextKeepsInv(h, sts[0]);
      hide Inv, Next, Allowed, AllSettled;
      SettledStaysOn(Next(h, sts[0]), sts[1..]);
    }
  }

  /** A longest wait and a gap for each of `n` attempts. */
  function Span(n: nat, gap: int): int {
    n * (LONGEST_WAIT + gap)
  }

  lemma SpanGrows(m: nat, n: nat, gap: int)
    requires gap >= 1 && m <= n
    ensures Span(m, gap) <= Span(n, gap) && (m < n ==> Span(m, gap) + LONGEST_WAIT + gap <= Span(n, gap))
    ensures Span(0, gap) == 0
  {
    if m < n {
      OneLess(m, n, LONGEST_WAIT + gap);
    }
  }

  /** `at` is when something was last found, `since` the last pass. */
  lemma {:induction false} SettledFrom(h: Hub, sts: seq<Step>, at: int, since: int, gap: int)
    requires gap >= 1 && Inv(h) && Lawful(h, sts) && AllDraining(sts) && Polled(sts, since, gap)
    requires Run(h, sts).hand.todo == [] && Horizon(h, at) && at <= since <= at + LONGEST_WAIT
    requires LastQuery(sts, since) >= at + Span(Potential(h), gap)
    ensures AllSettled(Run(h, sts).outbox)
    decreases |sts|
  {
    hide Span;
    if sts == [] {
      if Potential(h) > 0 {
        SpanGrows(0, Potential(h), gap);
        assert false;
      }
      NothingLeftToDo(h);
    } else if AllSettled(h.outbox) && h.hand.todo == [] {
      SettledStaysOn(h, sts);
    } else {
      var st := sts[0];
      StepLowers(h, st);
      HorizonMoves(h, st, at);
      NextKeepsInv(h, st);
      if st.Query? && st.due == [] {
        IdleIsShort(h, st, at);
      }
      var n := Next(h, st);
      hide Inv, Potential, Next, Allowed, Horizon, AllSettled;
      if st.Query? && st.due != [] {
        SpanGrows(Potential(n), Potential(h), gap);
        SettledFrom(n, sts[1..], st.now, st.now, gap);
      } else {
        SpanGrows(Potential(n), Potential(h), gap);
        SettledFrom(n, sts[1..], at, if st.Query? then st.now else since, gap);
      }
    }
  }

  /** From any reachable state, given nothing new, a worker that polls at least
      every `gap` seconds has settled every row by a longest wait and a gap for each
      attempt left, seven more for each background send still in flight. */
  lemma QueueDrains(h: Hub, sts: seq<Step>, start: int, gap: int)
    requires Inv(h) && Lawful(h, sts) && AllDraining(sts) && Run(h, sts).hand.todo == []
    requires gap >= 1 && Polled(sts, start, gap) && Horizon(h, start)
    requires LastQuery(sts, start) >= start + Span(Potential(h), gap)
    ensures AllSettled(Run(h, sts).outbox)
  {
    SettledFrom(h, sts, start, start, gap);
  }

  // ---- One row of a live queue -----------------------------------------------------------------

  predicate Done(h: Hub, k: nat) {
    k !in h.outbox || h.outbox[k].bounced.Some?
  }

  /** At some point of the run the row is gone or bounced. */
  predicate EverDone(h: Hub, sts: seq<Step>, k: nat)
    decreases |sts|
  {
    Done(h, k) || (sts != [] && EverDone(Next(h, sts[0]), sts[1..], k))
  }

  /** Attempts the row has left beyond one in hand, should that be lost, and what its
      open background sends can give back. */
  function RowWeight(h: Hub, k: nat): nat
    requires k in h.outbox
  {
    var a, b := Weight(ProjectedRow(h, k)), Weight(h.outbox[k]);
    (if a < b - 1 then b - 1 else a) + (MAX_FAILURES - 1) * Open(h, k)
  }

  predicate RowHorizon(h: Hub, k: nat, at: int)
    requires k in h.outbox
  {
    && (ProjectedRow(h, k).bounced.None? ==> ProjectedRow(h, k).nextAt <= at + LONGEST_WAIT)
    && h.outbox[k].nextAt <= at + LONGEST_WAIT
    && (Open(h, k) > 0 ==> h.flights[k].at + BACKOFF[0] <= at + LONGEST_WAIT)
  }

  /** A pass that finds the row due finds no more than it can take. */
  predicate KeepsUp(h: Hub, st: Step, k: nat) {
    st.Query? && k in Due(h.outbox, st.now) ==> |Due(h.outbox, st.now)| <= LIMIT
  }

  /** Through the run the worker keeps up with the row. */
  predicate KeptUp(h: Hub, sts: seq<Step>, k: nat)
    decreases |sts|
  {
    sts != [] ==> KeepsUp(h, sts[0], k) && KeptUp(Next(h, sts[0]), sts[1..], k)
  }

  function Restarts(sts: seq<Step>): nat {
    if sts == [] then 0 else (if sts[0].Restart? then 1 else 0) + Restarts(sts[1..])
  }

  /** The pass finds the row due. */
  predicate Finds(h: Hub, st: Step, k: nat) {
    st.Query? && k in Due(h.outbox, st.now)
  }

  lemma QueryMovesRow(h: Hub, st: Step, k: nat, at: int)
    requires Inv(h) && Allowed(h, st) && st.Query? && KeepsUp(h, st, k) && !Done(h, k)
    requires RowHorizon(h, k, at) && at <= st.now
    ensures var n := Next(h, st);
            && !Done(n, k) && RowWeight(n, k) <= RowWeight(h, k) - (if Finds(h, st, k) then 1 else 0)
            && RowHorizon(n, k, if Finds(h, st, k) then st.now else at)
    ensures !Finds(h, st, k) ==> st.now < at + LONGEST_WAIT
  {
    var r := h.outbox[k];
    assert SaneRow(h, r);
    if Finds(h, st, k) {
      TakenByEveryBatchIff(h.outbox, st.now, k);
      assert k in st.due && r.(attempts := r.attempts) == r;
      FailWaitsAtMost(r, st.now);
    } else {
      assert k !in st.due;
    }
    hide Inv, IsBatch;
  }

  lemma EndMovesRow(h: Hub, st: Step, k: nat, at: int)
    requires Inv(h) && Allowed(h, st) && (st.SentInBackground? || st.FailedInBackground?) && st.k == k
    requires !Done(h, k) && RowHorizon(h, k, at)
    ensures var n := Next(h, st); Done(n, k) || (RowWeight(n, k) <= RowWeight(h, k) && RowHorizon(n, k, at))
  {
    var n := Next(h, st);
    EndProjects(h, st);
    assert k in n.outbox ==> n.outbox[k] == h.outbox[k].(attempts := 1, nextAt := h.flights[k].at + BACKOFF[0]);
    assert Open(n, k) == Open(h, k) - 1 && n.flights[k].at == h.flights[k].at;
    hide Inv, ProjectedRow, Projected, Next, Allowed;
  }

  /** A step that is not about the row changes nothing for it. */
  lemma OthersLeaveRow(h: Hub, st: Step, k: nat)
    requires Allowed(h, st) && !st.Handle? && !st.Query? && !st.Restart? && k in h.outbox && k in h.used
    requires st.SentInBackground? || st.FailedInBackground? ==> st.k != k
    ensures var n := Next(h, st);
            && n.hand == h.hand && k in n.outbox && n.outbox[k] == h.outbox[k]
            && Open(n, k) <= Open(h, k) && (Open(n, k) > 0 ==> n.flights[k].at == h.flights[k].at)
  {
  }

  lemma OthersMoveRow(h: Hub, st: Step, k: nat, at: int)
    requires Inv(h) && Allowed(h, st) && !st.Query? && !st.Restart? && !Done(h, k) && RowHorizon(h, k, at)
    ensures var n := Next(h, st); Done(n, k) || (RowWeight(n, k) <= RowWeight(h, k) && RowHorizon(n, k, at))
  {
    assert k in h.used;
    var n := Next(h, st);
    if st.Handle? {
      HandleMovesRow(h, st, k, at);
    } else if (st.SentInBackground? || st.FailedInBackground?) && st.k == k {
      EndMovesRow(h, st, k, at);
    } else {
      OthersLeaveRow(h, st, k);
      SameProjection(h, n, k);
      SameRow(h, n, k, at);
    }
    hide Inv, ProjectedRow, Next, Allowed, RowWeight, RowHorizon, Open;
  }

  lemma SameRow(h: Hub, n: Hub, k: nat, at: int)
    requires k in h.outbox && k in n.outbox && n.outbox[k] == h.outbox[k] && ProjectedRow(n, k) == ProjectedRow(h, k)
    requires Open(n, k) <= Open(h, k) && (Open(n, k) > 0 ==> n.flights[k].at == h.flights[k].at)
    ensures RowWeight(n, k) <= RowWeight(h, k) && (RowHorizon(h, k, at) ==> RowHorizon(n, k, at))
  {
    hide ProjectedRow, Weight;
  }

  lemma HandleMovesRow(h: Hub, st: Step, k: nat, at: int)
    requires Inv(h) && Allowed(h, st) && st.Handle? && !Done(h, k) && RowHorizon(h, k, at)
    ensures var n := Next(h, st); Done(n, k) || (RowWeight(n, k) <= RowWeight(h, k) && RowHorizon(n, k, at))
  {
    var n, x := Next(h, st), h.hand.todo[0];
    HandleGoesOn(h, st);
    HandledIsOne(h, OutcomeIn(h, st));
    assert n.flights == h.flights && n.hand.todo == h.hand.todo[1..];
    assert h.hand.todo == [x] + h.hand.todo[1..] && x !in h.hand.todo[1..];
    if k != x {
      SameProjection(h, n, k);
      SameRow(h, n, k, at);
      hide Next, OutcomeIn, Inv, ProjectedRow, RowWeight, RowHorizon;
    } else {
      OwnMovesRow(h, st, at);
      hide Next, OutcomeIn, Inv, RowWeight, RowHorizon;
    }
  }

  lemma OwnMovesRow(h: Hub, st: Step, at: int)
    requires Inv(h) && st.Handle? && h.hand.todo != [] && h.hand.todo[0] !in Next(h, st).hand.todo
    requires !Done(h, h.hand.todo[0]) && RowHorizon(h, h.hand.todo[0], at)
    ensures var n, k := Next(h, st), h.hand.todo[0];
            Done(n, k) || (RowWeight(n, k) <= RowWeight(h, k) && RowHorizon(n, k, at))
  {
    var n, k := Next(h, st), h.hand.todo[0];
    HandleProjects(h, st);
    if k in n.outbox {
      assert ProjectedRow(n, k) == n.outbox[k];
    }
    hide Next, Inv, ProjectedRow, Projected;
  }

  /** A restart of the process may lose the attempt in hand. */
  lemma RestartMovesRow(h: Hub, k: nat, at: int)
    requires !Done(h, k) && RowHorizon(h, k, at)
    ensures var n := Next(h, Restart);
            !Done(n, k) && RowWeight(n, k) <= RowWeight(h, k) + 1 && RowHorizon(n, k, at)
  {
    hide Rewritten;
  }

  lemma NotDoneHasWeight(h: Hub, k: nat)
    requires Inv(h) && !Done(h, k) && k !in h.hand.todo
    ensures RowWeight(h, k) > 0
  {
    assert SaneRow(h, h.outbox[k]);
  }

  lemma MovesRow(h: Hub, st: Step, k: nat, at: int)
    requires Inv(h) && Allowed(h, st) && KeepsUp(h, st, k) && !Done(h, k)
    requires RowHorizon(h, k, at) && (st.Query? ==> at <= st.now)
    ensures var n := Next(h, st);
            Done(n, k)
            || (RowHorizon(n, k, if Finds(h, st, k) then st.now else at)
                && RowWeight(n, k) + (if Finds(h, st, k) then 1 else 0) <= RowWeight(h, k) + if st.Restart? then 1 else 0)
    ensures st.Query? && !Finds(h, st, k) ==> st.now < at + LONGEST_WAIT
    ensures Finds(h, st, k) ==> st.Query?
  {
    if st.Query? {
      QueryMovesRow(h, st, k, at);
    } else if st.Restart? {
      RestartMovesRow(h, k, at);
    } else {
      OthersMoveRow(h, st, k, at);
    }
    hide Inv, RowWeight, RowHorizon, Next, Allowed, Due;
  }

  lemma {:induction false} RowFrom(h: Hub, sts: seq<Step>, k: nat, at: int, since: int, gap: int)
    requires gap >= 1 && Inv(h) && Lawful(h, sts) && KeptUp(h, sts, k) && Polled(sts, since, gap)
    requires k !in Run(h, sts).hand.todo && at <= since <= at + LONGEST_WAIT
    requires !Done(h, k) ==>
               RowHorizon(h, k, at) && LastQuery(sts, since) >= at + Span(RowWeight(h, k) + Restarts(sts), gap)
    ensures EverDone(h, sts, k)
    decreases |sts|
  {
    hide Inv, Next, Allowed, Lawful, KeptUp, Polled, RowHorizon, RowWeight, Span, Done, Projected;
    NotDoneIsQueued(h, k);
    if !Done(h, k) {
      if sts == [] {
        RowFromEnd(h, k, at, since, gap);
      } else {
        hide LastQuery, Restarts;
        RowFromNext(h, sts, k, at, since, gap);
        var st := sts[0];
        var finds := Finds(h, st, k);
        RowFrom(Next(h, st), sts[1..], k, if finds then st.now else at, if st.Query? then st.now else since, gap);
      }
    }
  }

  lemma RowFromEnd(h: Hub, k: nat, at: int, since: int, gap: int)
    requires gap >= 1 && Inv(h) && k !in h.hand.todo && since <= at + LONGEST_WAIT && k in h.outbox
    requires since >= at + Span(RowWeight(h, k), gap)
    ensures Done(h, k)
  {
    hide Span, RowWeight;
    if !Done(h, k) {
      NotDoneHasWeight(h, k);
      SpanGrows(0, RowWeight(h, k), gap);
    }
  }

  /** One step on, the premises hold again. */
  lemma RowFromNext(h: Hub, sts: seq<Step>, k: nat, at: int, since: int, gap: int)
    requires gap >= 1 && Inv(h) && Lawful(h, sts) && KeptUp(h, sts, k) && Polled(sts, since, gap)
    requires at <= since <= at + LONGEST_WAIT && !Done(h, k) && sts != []
    requires RowHorizon(h, k, at) && LastQuery(sts, since) >= at + Span(RowWeight(h, k) + Restarts(sts), gap)
    ensures var st, n, rest := sts[0], Next(h, sts[0]), sts[1..];
            var later, last := if Finds(h, st, k) then st.now else at, if st.Query? then st.now else since;
            && Inv(n) && Lawful(n, rest) && KeptUp(n, rest, k) && Polled(rest, last, gap)
            && later <= last <= later + LONGEST_WAIT
            && (!Done(n, k) ==>
                  RowHorizon(n, k, later) && LastQuery(rest, last) >= later + Span(RowWeight(n, k) + Restarts(rest), gap))
  {
    hide *;
    var st, n, rest := sts[0], Next(h, sts[0]), sts[1..];
    OneStepOn(h, sts, k, since, gap);
    NextKeepsInv(h, st);
    MovesRow(h, st, k, at);
    NotDoneIsQueued(h, k);
    NotDoneIsQueued(n, k);
    if !Done(n, k) {
      SpanGrows(RowWeight(n, k) + Restarts(rest), RowWeight(h, k) + Restarts(sts), gap);
    }
  }

  lemma NotDoneIsQueued(h: Hub, k: nat)
    ensures !Done(h, k) ==> k in h.outbox
  {
  }

  /** What the premises say of the first step and of the rest. */
  lemma OneStepOn(h: Hub, sts: seq<Step>, k: nat, since: int, gap: int)
    requires Lawful(h, sts) && KeptUp(h, sts, k) && Polled(sts, since, gap) && sts != []
    ensures var st, n, rest := sts[0], Next(h, sts[0]), sts[1..];
            var last := if st.Query? then st.now else since;
            && Allowed(h, st) && KeepsUp(h, st, k) && Lawful(n, rest) && KeptUp(n, rest, k)
            && Polled(rest, last, gap) && LastQuery(rest, last) == LastQuery(sts, since)
            && (st.Query? ==> since <= st.now <= since + gap)
            && Restarts(sts) == Restarts(rest) + if st.Restart? then 1 else 0
  {
    hide Next, Allowed, KeepsUp;
  }

  lemma RowWeightAtMost(h: Hub, k: nat)
    requires k in h.outbox
    ensures RowWeight(h, k) <= MAX_FAILURES + (MAX_FAILURES - 1) * Open(h, k)
  {
    hide ProjectedRow, Open;
  }

  /** One row of a live queue: through arrivals, other rows and background sends
      that end at any time, a row is delivered or bounced within eight longest waits
      and gaps, seven more for each of its background sends that is open and one
      more for each restart of the process, as long as no more rows are due than a
      pass takes when a pass finds it due. */
  lemma RowSettlesInTime(h: Hub, sts: seq<Step>, k: nat, start: int, gap: int)
    requires gap >= 1 && Inv(h) && k in h.outbox && RowHorizon(h, k, start)
    requires Lawful(h, sts) && KeptUp(h, sts, k) && Polled(sts, start, gap) && k !in Run(h, sts).hand.todo
    requires LastQuery(sts, start) >=
             start + Span(MAX_FAILURES + (MAX_FAILURES - 1) * Open(h, k) + Restarts(sts), gap)
    ensures EverDone(h, sts, k)
  {
    assert 0 <= LONGEST_WAIT;
    hide *;
    RowWeightAtMost(h, k);
    SpanGrows(RowWeight(h, k) + Restarts(sts), MAX_FAILURES + (MAX_FAILURES - 1) * Open(h, k) + Restarts(sts), gap);
    RowFrom(h, sts, k, start, start, gap);
  }
}
