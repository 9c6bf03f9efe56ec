/** How often a queued row can fail, and when a bounced one is final, when
    background sends end at any time. */
module DmFailures {
  import opened Bytes
  import opened Basics
  import opened DmMessages
  import opened Outbox
  import opened DmRuns

  /** A failure of row `k` that is written down: the worker's, or the background
      send's. */
  predicate Fails(h: Hub, st: Step, k: nat) {
    k in h.outbox &&
    ((st.Handle? && h.hand.todo != [] && h.hand.todo[0] == k && OutcomeIn(h, st).Failed?)
     || (st.FailedInBackground? && st.k == k))
  }

  function Failures(h: Hub, sts: seq<Step>, k: nat): nat
    decreases |sts|
  {
    if sts == [] then 0 else (if Fails(h, sts[0], k) then 1 else 0) + Failures(Next(h, sts[0]), sts[1..], k)
  }

  /** A row that was delivered or dropped is queued anew, as a new row. */
  predicate Renews(h: Hub, st: Step, k: nat) {
    (st.Enqueue? || st.Start?) && st.k == k && k !in h.outbox
  }

  predicate NeverRenewed(h: Hub, sts: seq<Step>, k: nat)
    decreases |sts|
  {
    sts != [] ==> !Renews(h, sts[0], k) && NeverRenewed(Next(h, sts[0]), sts[1..], k)
  }

  /** The attempts the worker counts on from: those it read, once it has the row in
      hand. */
  function Counted(h: Hub, k: nat): nat
    requires k in h.outbox
  {
    if k in h.hand.todo && k in h.hand.read then h.hand.read[k].attempts else h.outbox[k].attempts
  }

  /** How often the row can still fail. Each background send that is open can set
      its attempts back to one, after which the worker has seven more. In hand for
      what would be the eighth time, the row is either bounced, whatever the sends
      do meanwhile, or given up by a restart, which ends the sends as well. */
  function Budget(h: Hub, k: nat): int {
    if k !in h.outbox then 0
    else
      var r, m := h.outbox[k], Open(h, k);
      if r.bounced.Some? then m
      else if k !in h.hand.todo || k !in h.hand.read then MAX_FAILURES - r.attempts + (MAX_FAILURES - 1) * m
      else
        var read := h.hand.read[k].attempts;
        if m == 0 then MAX_FAILURES - if read < r.attempts then read else r.attempts
        else if read == MAX_FAILURES - 1 then m + MAX_FAILURES - 1
        else MAX_FAILURES - read + (MAX_FAILURES - 1) * m
  }

  lemma BudgetIsNatural(h: Hub, k: nat)
    requires Inv(h)
    ensures Budget(h, k) >= 0
  {
    assert k in h.outbox ==> SaneRow(h, h.outbox[k]);
    assert k in h.hand.read ==> SaneRow(h, h.hand.read[k]);
    assert k in h.hand.todo ==> HeldRow(h, k);
  }

  /** The worker's step on the row itself. */
  lemma HandleSpends(h: Hub, st: Step, k: nat)
    requires Inv(h) && st.Handle? && h.hand.todo != [] && h.hand.todo[0] == k
    ensures Budget(Next(h, st), k) + (if Fails(h, st, k) then 1 else 0) <= Budget(h, k)
  {
    var n := Next(h, st);
    HandleGoesOn(h, st);
    assert k in h.hand.todo && HeldRow(h, k) && k !in n.hand.todo;
    assert SaneRow(h, h.hand.read[k]) && (k in h.outbox ==> SaneRow(h, h.outbox[k]));
    hide OutcomeIn, Inv, DueAt;
  }

  /** Nothing the budget of the row looks at has changed. */
  predicate Unaffected(h: Hub, n: Hub, k: nat) {
    && Lookup(n.outbox, k) == Lookup(h.outbox, k) && Open(n, k) == Open(h, k)
    && (k in n.hand.todo <==> k in h.hand.todo) && n.hand.read == h.hand.read
  }

  lemma SameBudget(h: Hub, n: Hub, k: nat)
    requires Unaffected(h, n, k)
    ensures Budget(n, k) == Budget(h, k)
  {
    hide Open;
  }

  lemma OthersSpend(h: Hub, st: Step, k: nat)
    requires Inv(h) && Allowed(h, st) && !Renews(h, st, k)
    requires st.Handle? ==> h.hand.todo[0] != k
    ensures Budget(Next(h, st), k) + (if Fails(h, st, k) then 1 else 0) <= Budget(h, k)
  {
    var n := Next(h, st);
    assert k in h.outbox ==> SaneRow(h, h.outbox[k]) && k in h.used;
    assert k in h.hand.todo ==> HeldRow(h, k) && SaneRow(h, h.hand.read[k]);
    if st.Handle? {
      OtherHandled(h, st, k);
    } else if (st.SentInBackground? || st.FailedInBackground? || st.Abandon?) && st.k == k {
      EndSpends(h, st, k);
    } else if st.Query? || st.Restart? {
      ReadingSpends(h, st, k);
    } else if k in h.outbox {
      OthersDoNotAffect(h, st, k);
      SameBudget(h, n, k);
    } else {
      assert k !in n.outbox;
    }
    hide Next, Budget, Inv, Allowed, SaneRow, HeldRow, Open;
  }

  lemma OthersDoNotAffect(h: Hub, st: Step, k: nat)
    requires Allowed(h, st) && !st.Handle? && !st.Query? && !st.Restart? && k in h.outbox && k in h.used
    requires (st.SentInBackground? || st.FailedInBackground? || st.Abandon?) ==> st.k != k
    ensures Unaffected(h, Next(h, st), k) && !Fails(h, st, k)
  {
  }

  lemma ReadingSpends(h: Hub, st: Step, k: nat)
    requires Allowed(h, st) && (st.Query? || st.Restart?)
    requires k in h.outbox ==> SaneRow(h, h.outbox[k])
    requires k in h.hand.todo ==> HeldRow(h, k) && SaneRow(h, h.hand.read[k])
    ensures Budget(Next(h, st), k) <= Budget(h, k) && !Fails(h, st, k)
  {
    hide IsBatch, DueAt;
  }

  /** A background send of the row ends, or its handler starts no more. */
  lemma EndSpends(h: Hub, st: Step, k: nat)
    requires Allowed(h, st) && (st.SentInBackground? || st.FailedInBackground? || st.Abandon?) && st.k == k
    requires k in h.outbox ==> SaneRow(h, h.outbox[k])
    requires k in h.hand.todo ==> HeldRow(h, k) && SaneRow(h, h.hand.read[k])
    ensures Budget(Next(h, st), k) + (if Fails(h, st, k) then 1 else 0) <= Budget(h, k)
  {
    hide DueAt;
  }

  /** The worker's step on another row. */
  lemma OtherHandled(h: Hub, st: Step, k: nat)
    requires Inv(h) && st.Handle? && h.hand.todo != [] && h.hand.todo[0] != k
    ensures Budget(Next(h, st), k) == Budget(h, k) && !Fails(h, st, k)
    ensures k in h.hand.todo[1..] <==> k in h.hand.todo
  {
    HandledIsOne(h, OutcomeIn(h, st));
    HandleGoesOn(h, st);
    assert h.hand.todo == [h.hand.todo[0]] + h.hand.todo[1..];
    hide OutcomeIn, Inv, Handled, Budget;
    SameBudget(h, Next(h, st), k);
  }

  /** However the steps fall, a row fails no more often than its budget: eight times
      less its attempts, and seven more for each background send that is open. */
  lemma {:induction false} FailuresBounded(h: Hub, sts: seq<Step>, k: nat)
    requires Inv(h) && Lawful(h, sts) && NeverRenewed(h, sts, k)
    ensures Failures(h, sts, k) <= Budget(h, k)
    decreases |sts|
  {
    if sts == [] {
      BudgetIsNatural(h, k);
    } else {
      var st := sts[0];
      if st.Handle? && h.hand.todo[0] == k {
        HandleSpends(h, st, k);
      } else {
        OthersSpend(h, st, k);
      }
      NextKeepsInv(h, st);
      hide Inv, Budget, Next, Fails, Allowed, Renews;
      FailuresBounded(Next(h, st), sts[1..], k);
    }
  }

  // ---- The budget is reached -------------------------------------------------------------

  lemma CountThen(h: Hub, st: Step, sts: seq<Step>, k: nat)
    ensures Failures(h, [st] + sts, k) == (if Fails(h, st, k) then 1 else 0) + Failures(Next(h, st), sts, k)
    ensures NeverRenewed(h, [st] + sts, k) <==> !Renews(h, st, k) && NeverRenewed(Next(h, st), sts, k)
  {
    hide Next, Fails, Renews;
    assert ([st] + sts)[0] == st && ([st] + sts)[1..] == sts;
  }

  lemma {:induction false} CountOn(h: Hub, a: seq<Step>, b: seq<Step>, k: nat)
    ensures Failures(h, a + b, k) == Failures(h, a, k) + Failures(Run(h, a), b, k)
    ensures NeverRenewed(h, a + b, k) <==> NeverRenewed(h, a, k) && NeverRenewed(Run(h, a), b, k)
    decreases |a|
  {
    hide Next, Fails, Renews;
    if a == [] {
      assert a + b == b;
    } else {
      assert a + b == [a[0]] + (a[1..] + b);
      CountThen(h, a[0], a[1..] + b, k);
      CountOn(Next(h, a[0]), a[1..], b, k);
    }
  }

  /** A reader of everything, and a hub that refuses everything. */
  function Refusal(): Step {
    Handle(Json(e => [], s => Some(0), s => Some(0)), false)
  }

  lemma RefusalFails(h: Hub)
    requires Inv(h) && h.hand.todo != []
    ensures OutcomeIn(h, Refusal()).Failed?
  {
    HandleGoesOn(h, Refusal());
    assert h.hand.todo[0] in h.hand.todo && HeldRow(h, h.hand.todo[0]);
    StoredMessagesLoad(h, Refusal().json, InHand(h).subject);
  }

  /** What a refusal does to the row it is about, and to the others. */
  lemma RefusalIs(h: Hub, k: nat)
    requires Inv(h) && h.hand.todo != [] && k in h.outbox
    ensures var n := Next(h, Refusal());
            && Inv(n) && n.flights == h.flights && n.hand.todo == h.hand.todo[1..] && k in n.outbox
            && Allowed(h, Refusal()) && !Renews(h, Refusal(), k)
            && (h.hand.todo[0] != k ==> n.outbox[k] == h.outbox[k] && !Fails(h, Refusal(), k)
                                        && (k in n.hand.todo <==> k in h.hand.todo) && Counted(n, k) == Counted(h, k))
            && (h.hand.todo[0] == k ==>
                  && Fails(h, Refusal(), k) && k !in n.hand.todo
                  && n.outbox[k].attempts == Counted(h, k) + 1
                  && (n.outbox[k].bounced.Some? <==> Counted(h, k) + 1 == MAX_FAILURES))
  {
    RefusalFails(h);
    NextKeepsInv(h, Refusal());
    HandledIsOne(h, OutcomeIn(h, Refusal()));
    var x, todo := h.hand.todo[0], h.hand.todo;
    assert x in todo && HeldRow(h, x) && SaneRow(h, h.hand.read[x]);
    assert todo == [x] + todo[1..];
    hide OutcomeIn, Inv, DueAt;
  }

  lemma QueryIs(h: Hub, k: nat, due: seq<nat>)
    requires Inv(h) && h.hand.todo == [] && k in h.outbox && h.outbox[k].bounced.None?
    requires IsBatch(due, h.outbox, h.outbox[k].nextAt) && k in due
    ensures var st := Query(h.outbox[k].nextAt, due);
            var n := Next(h, st);
            && Inv(n) && Allowed(h, st) && !Fails(h, st, k) && !Renews(h, st, k)
            && n.flights == h.flights && n.outbox == h.outbox && n.hand.todo == due && Counted(n, k) == Counted(h, k)
  {
    NextKeepsInv(h, Query(h.outbox[k].nextAt, due));
    hide Inv, IsBatch;
  }

  /** The worker alone can fail a row `n` times, up to its eighth failure. */
  lemma {:induction false} CanFail(h: Hub, k: nat, n: nat) returns (sts: seq<Step>)
    requires Inv(h) && k in h.outbox && Counted(h, k) + n <= MAX_FAILURES && (n > 0 ==> h.outbox[k].bounced.None?)
    ensures Lawful(h, sts) && NeverRenewed(h, sts, k) && Failures(h, sts, k) == n
    ensures var g := Run(h, sts);
            && Inv(g) && g.flights == h.flights && k in g.outbox
            && (n > 0 ==> k !in g.hand.todo && g.outbox[k].attempts == Counted(h, k) + n
                          && (g.outbox[k].bounced.Some? <==> Counted(h, k) + n == MAX_FAILURES))
            && (n == 0 ==> g == h)
    decreases n, if k in h.hand.todo then 0 else 1, |h.hand.todo|
  {
    sts := [];
    if n > 0 {
      var st := Refusal();
      if h.hand.todo == [] {
        assert k in Due(h.outbox, h.outbox[k].nextAt);
        var due := BatchOf(h.outbox, h.outbox[k].nextAt, {k});
        QueryIs(h, k, due);
        st := Query(h.outbox[k].nextAt, due);
      } else {
        RefusalIs(h, k);
      }
      var next := Next(h, st);
      var fails := Fails(h, st, k);
      hide Inv, Next, Fails, Renews, Allowed;
      var rest := CanFail(next, k, if fails then n - 1 else n);
      FirstThen(h, st, rest);
      CountThen(h, st, rest, k);
      sts := [st] + rest;
    }
  }

  lemma EndIs(h: Hub, k: nat)
    requires Inv(h) && k in h.outbox && InFlight(h, k) > 0
    ensures var st := FailedInBackground(k);
            var n := Next(h, st);
            && Inv(n) && Allowed(h, st) && Fails(h, st, k) && !Renews(h, st, k) && n.hand == h.hand
            && Open(n, k) == Open(h, k) - 1 && k in n.outbox
            && n.outbox[k].attempts == 1 && n.outbox[k].bounced == h.outbox[k].bounced
  {
    NextKeepsInv(h, FailedInBackground(k));
    hide Inv;
  }

  lemma StartIs(h: Hub, k: nat)
    requires Inv(h) && k in h.outbox && InFlight(h, k) == 0 && Open(h, k) > 0
    ensures var st := Start(k);
            var n := Next(h, st);
            && Inv(n) && Allowed(h, st) && !Fails(h, st, k) && !Renews(h, st, k) && n.hand == h.hand
            && Open(n, k) == Open(h, k) && InFlight(n, k) > 0 && n.outbox == h.outbox
  {
    NextKeepsInv(h, Start(k));
    hide Inv;
  }

  /** An open background send is started, if it has not been, and fails. */
  lemma OneSendFails(h: Hub, k: nat) returns (sts: seq<Step>)
    requires Inv(h) && k in h.outbox && Open(h, k) > 0
    ensures Lawful(h, sts) && NeverRenewed(h, sts, k) && Failures(h, sts, k) == 1
    ensures var g := Run(h, sts);
            && Inv(g) && g.hand == h.hand && Open(g, k) == Open(h, k) - 1 && k in g.outbox
            && g.outbox[k].attempts == 1 && g.outbox[k].bounced == h.outbox[k].bounced
  {
    var st := FailedInBackground(k);
    if InFlight(h, k) > 0 {
      EndIs(h, k);
      FirstThen(h, st, []);
      CountThen(h, st, [], k);
      assert [st] + [] == [st];
      sts := [st];
    } else {
      StartIs(h, k);
      var n := Next(h, Start(k));
      EndIs(n, k);
      FirstThen(n, st, []);
      CountThen(n, st, [], k);
      assert [st] + [] == [st];
      FirstThen(h, Start(k), [st]);
      CountThen(h, Start(k), [st], k);
      sts := [Start(k)] + [st];
    }
    hide Next, Inv, Open;
  }

  lemma RestartIs(h: Hub, k: nat)
    requires Inv(h)
    ensures var n := Next(h, Restart);
            && Inv(n) && Allowed(h, Restart) && !Fails(h, Restart, k) && !Renews(h, Restart, k)
            && n.hand.todo == [] && n.flights == map[] && n.outbox == h.outbox
  {
    NextKeepsInv(h, Restart);
  }

  /** With no background send open: the worker goes on, or starts over where that
      gives the row more. */
  lemma ReachedGrounded(h: Hub, k: nat) returns (sts: seq<Step>)
    requires Inv(h) && Open(h, k) == 0
    ensures Lawful(h, sts) && NeverRenewed(h, sts, k) && Failures(h, sts, k) == Budget(h, k)
  {
    sts := [];
    if k in h.outbox && h.outbox[k].bounced.None? {
      assert SaneRow(h, h.outbox[k]);
      assert k in h.hand.todo ==> HeldRow(h, k) && SaneRow(h, h.hand.read[k]);
      if Counted(h, k) <= h.outbox[k].attempts {
        sts := CanFail(h, k, MAX_FAILURES - Counted(h, k));
      } else {
        RestartIs(h, k);
        var n := Next(h, Restart);
        var rest := CanFail(n, k, MAX_FAILURES - n.outbox[k].attempts);
        FirstThen(h, Restart, rest);
        CountThen(h, Restart, rest, k);
        sts := [Restart] + rest;
      }
    }
  }

  /** What the worker does before the next send fails: it takes the row as far as it
      can without bouncing it. */
  lemma WorkerFirst(h: Hub, k: nat) returns (sts: seq<Step>)
    requires Inv(h) && k in h.outbox && h.outbox[k].bounced.None? && Open(h, k) > 0
    requires k in h.hand.todo ==> Counted(h, k) < MAX_FAILURES - 1
    ensures Lawful(h, sts) && NeverRenewed(h, sts, k)
    ensures var g := Run(h, sts);
            && Inv(g) && g.flights == h.flights && k in g.outbox && g.outbox[k].bounced.None?
            && k !in g.hand.todo && g.outbox[k].attempts == MAX_FAILURES - 1
            && Failures(h, sts, k) == MAX_FAILURES - 1 - Counted(h, k)
  {
    assert SaneRow(h, h.outbox[k]);
    assert k in h.hand.todo ==> HeldRow(h, k);
    sts := CanFail(h, k, MAX_FAILURES - 1 - Counted(h, k));
  }

  lemma AfterOneSend(h: Hub, g: Hub, n: Hub, k: nat)
    requires Inv(h) && k in h.outbox && Open(h, k) > 0 && k in g.outbox && k in n.outbox
    requires n.hand == g.hand && Open(n, k) == Open(g, k) - 1 && Open(g, k) == Open(h, k)
    requires n.outbox[k].attempts == 1 && n.outbox[k].bounced == g.outbox[k].bounced == h.outbox[k].bounced
    requires if h.outbox[k].bounced.Some? then g == h
             else if k in h.hand.todo && Counted(h, k) == MAX_FAILURES - 1 then g == h
             else k !in g.hand.todo
    ensures Budget(h, k) == 1 + Budget(n, k) +
            if h.outbox[k].bounced.Some? || (k in h.hand.todo && Counted(h, k) == MAX_FAILURES - 1) then 0
            else MAX_FAILURES - 1 - Counted(h, k)
  {
    assert k in h.hand.todo ==> HeldRow(h, k);
    hide Inv, Open;
  }

  /** The budget is exact: from every reachable state some run fails the row just that
      often. */
  lemma {:induction false} BudgetIsReached(h: Hub, k: nat) returns (sts: seq<Step>)
    requires Inv(h)
    ensures Lawful(h, sts) && NeverRenewed(h, sts, k) && Failures(h, sts, k) == Budget(h, k)
    decreases Open(h, k)
  {
    sts := [];
    if Open(h, k) == 0 {
      sts := ReachedGrounded(h, k);
    } else if k in h.outbox {
      var first: seq<Step> := [];
      if h.outbox[k].bounced.None? && (k in h.hand.todo ==> Counted(h, k) < MAX_FAILURES - 1) {
        first := WorkerFirst(h, k);
      }
      assert k in h.hand.todo ==> HeldRow(h, k) && SaneRow(h, h.hand.read[k]);
      var g := Run(h, first);
      assert Open(g, k) == Open(h, k);
      var one := OneSendFails(g, k);
      var n := Run(g, one);
      AfterOneSend(h, g, n, k);
      hide Budget, Inv, Next, Open, HeldRow, SaneRow;
      var rest := BudgetIsReached(n, k);
      RunOn(g, one, rest);
      CountOn(g, one, rest, k);
      RunOn(h, first, one + rest);
      CountOn(h, first, one + rest, k);
      sts := first + (one + rest);
    }
  }

  // ---- Eight failures ------------------------------------------------------------------------

  /** A row's attempts, and those it was read with, never exceed its failures. */
  predicate Tracks(h: Hub, k: nat, failures: nat) {
    k in h.outbox ==>
      h.outbox[k].attempts <= failures && (k in h.hand.todo && k in h.hand.read ==> h.hand.read[k].attempts <= failures)
  }

  lemma NextTracks(h: Hub, st: Step, k: nat, failures: nat)
    requires Inv(h) && Allowed(h, st) && !Renews(h, st, k) && Tracks(h, k, failures)
    ensures Tracks(Next(h, st), k, failures + if Fails(h, st, k) then 1 else 0)
  {
    if st.Handle? {
      HandledIsOne(h, OutcomeIn(h, st));
      HandleGoesOn(h, st);
      var x, todo := h.hand.todo[0], h.hand.todo;
      assert x in todo && HeldRow(h, x) && todo == [x] + todo[1..] && x !in todo[1..];
    }
    hide Inv, OutcomeIn, DueAt, IsBatch;
  }

  lemma {:induction false} FailuresAreTracked(h: Hub, sts: seq<Step>, k: nat, failures: nat)
    requires Inv(h) && Lawful(h, sts) && NeverRenewed(h, sts, k) && Tracks(h, k, failures)
    ensures Tracks(Run(h, sts), k, failures + Failures(h, sts, k))
    decreases |sts|
  {
    if sts != [] {
      NextTracks(h, sts[0], k, failures);
      NextKeepsInv(h, sts[0]);
      hide Inv, Next, Tracks, Fails, Renews, Allowed;
      FailuresAreTracked(Next(h, sts[0]), sts[1..], k, failures + if Fails(h, sts[0], k) then 1 else 0);
    }
  }

  /** A background send fails while its row has `failures` behind it. The row then
      fails at most eight times in all, in every continuation, exactly when that is
      its first failure, the worker does not have it in hand, and no other send of
      it is in flight or still to be started. */
  lemma EightFailuresIff(h: Hub, k: nat, failures: nat)
    requires Inv(h) && k in h.outbox && InFlight(h, k) > 0 && h.outbox[k].bounced.None? && Tracks(h, k, failures)
    ensures (forall sts ::
               Lawful(h, [FailedInBackground(k)] + sts) && NeverRenewed(h, [FailedInBackground(k)] + sts, k) ==>
                 failures + Failures(h, [FailedInBackground(k)] + sts, k) <= MAX_FAILURES)
            <==> failures == 0 && k !in h.hand.todo && Open(h, k) == 1
  {
    var st := FailedInBackground(k);
    var n := Next(h, st);
    EndIs(h, k);
    OnlyThenSeven(h, n, k, failures);
    var most := BudgetIsReached(n, k);
    FirstThen(h, st, most);
    CountThen(h, st, most, k);
    hide Inv, Budget, Next, Allowed, Fails, Renews, HeldRow, Tracks, Open;
    forall sts | Lawful(h, [st] + sts) && NeverRenewed(h, [st] + sts, k)
      ensures failures + Failures(h, [st] + sts, k) <= failures + 1 + Budget(n, k)
    {
      FirstThen(h, st, sts);
      CountThen(h, st, sts, k);
      FailuresBounded(n, sts, k);
    }
  }

  lemma OnlyThenSeven(h: Hub, n: Hub, k: nat, failures: nat)
    requires Inv(h) && k in h.outbox && h.outbox[k].bounced.None? && Tracks(h, k, failures) && Open(h, k) > 0
    requires k in n.outbox && n.hand == h.hand && Open(n, k) == Open(h, k) - 1
    requires n.outbox[k].attempts == 1 && n.outbox[k].bounced.None?
    ensures failures + 1 + Budget(n, k) <= MAX_FAILURES <==> failures == 0 && k !in h.hand.todo && Open(h, k) == 1
  {
    assert k in h.hand.todo ==> HeldRow(h, k) && SaneRow(h, h.hand.read[k]);
    hide Inv, Open;
  }

  /** A row freshly queued, all of its background sends still to be started: it can
      fail eight times and seven more for each of them, and no more. */
  lemma FreshBudget(h: Hub, k: nat)
    requires k in h.outbox && k !in h.hand.todo && h.outbox[k].attempts == 0 && h.outbox[k].bounced.None?
    ensures Budget(h, k) == MAX_FAILURES + (MAX_FAILURES - 1) * Open(h, k)
  {
  }

  // ---- Bounced rows --------------------------------------------------------------------------

  lemma NextKeepsBounced(h: Hub, st: Step, k: nat)
    requires Inv(h) && Allowed(h, st) && Open(h, k) == 0 && k in h.outbox && h.outbox[k].bounced.Some?
    ensures Open(Next(h, st), k) == 0 && k in Next(h, st).outbox && Next(h, st).outbox[k] == h.outbox[k]
  {
    assert k in h.used;
    assert k !in h.hand.todo by {
      assert k in h.hand.todo ==> HeldRow(h, k);
    }
    if st.Handle? {
      HandledIsOne(h, OutcomeIn(h, st));
      hide Handled, OutcomeIn;
    }
    hide Inv, IsBatch;
  }

  lemma {:induction false} BouncedStays(h: Hub, sts: seq<Step>, k: nat)
    requires Inv(h) && Lawful(h, sts) && Open(h, k) == 0 && k in h.outbox && h.outbox[k].bounced.Some?
    ensures k in Run(h, sts).outbox && Run(h, sts).outbox[k] == h.outbox[k]
    decreases |sts|
  {
    if sts != [] {
      NextKeepsBounced(h, sts[0], k);
      NextKeepsInv(h, sts[0]);
      hide Inv, Next, Allowed;
      BouncedStays(Next(h, sts[0]), sts[1..], k);
    }
  }

  /** A bounced row is never touched again, whatever happens, exactly when no
      background send of it is in flight or still to be started. */
  lemma BouncedIsFinalIff(h: Hub, k: nat)
    requires Inv(h) && k in h.outbox && h.outbox[k].bounced.Some?
    ensures (forall sts :: Lawful(h, sts) ==> k in Run(h, sts).outbox && Run(h, sts).outbox[k] == h.outbox[k])
            <==> Open(h, k) == 0
  {
    if Open(h, k) > 0 {
      var g := h;
      var first: seq<Step> := [];
      if InFlight(h, k) == 0 {
        StartIs(h, k);
        FirstThen(h, Start(k), []);
        first := [Start(k)] + [];
        g := Next(h, Start(k));
      }
      var st := SentInBackground(k);
      FirstThen(g, st, []);
      assert [st] + [] == [st];
      RunOn(h, first, [st]);
      assert Lawful(h, first + [st]) && k !in Run(h, first + [st]).outbox;
    } else {
      forall sts | Lawful(h, sts) ensures k in Run(h, sts).outbox && Run(h, sts).outbox[k] == h.outbox[k] {
        BouncedStays(h, sts, k);
      }
    }
  }

  // ---- The history of a row the worker has to itself ---------------------------------------------

  /** No step but the worker's is about row `k`. */
  predicate LeftAlone(st: Step, k: nat) {
    st.SentInBackground? || st.FailedInBackground? || st.Enqueue? || st.Start? ==> st.k != k
  }

  function EventsIn(h: Hub, sts: seq<Step>, k: nat): seq<Event>
    decreases |sts|
  {
    if sts == [] then []
    else
      (if sts[0].Handle? && h.hand.todo != [] && h.hand.todo[0] == k then [Event(h.hand.now, OutcomeIn(h, sts[0]))] else [])
      + EventsIn(Next(h, sts[0]), sts[1..], k)
  }

  /** If the worker has the row in hand, it is as it was read. */
  predicate AsRead(h: Hub, k: nat) {
    k in h.hand.todo ==> k in h.hand.read && Lookup(h.outbox, k) == Some(h.hand.read[k])
  }

  lemma NextInHistory(h: Hub, st: Step, k: nat)
    requires Inv(h) && Allowed(h, st) && LeftAlone(st, k) && AsRead(h, k)
    ensures AsRead(Next(h, st), k)
    ensures if st.Handle? && h.hand.todo[0] == k then
              && Lookup(h.outbox, k).Some? && DueAt(Lookup(h.outbox, k).value, h.hand.now)
              && Lookup(Next(h, st).outbox, k) == Settle(Lookup(h.outbox, k).value, OutcomeIn(h, st), h.hand.now)
            else Lookup(Next(h, st).outbox, k) == Lookup(h.outbox, k)
  {
    if st.Handle? {
      HandleGoesOn(h, st);
      HandledIsOne(h, OutcomeIn(h, st));
      var todo := h.hand.todo;
      assert todo == [todo[0]] + todo[1..] && HeldRow(h, todo[0]) && todo[0] !in todo[1..];
      if todo[0] == k {
        assert h.outbox[k].(attempts := InHand(h).attempts) == h.outbox[k];
        hide Fail, OutcomeIn, DueAt, Inv;
      } else {
        hide Handled, OutcomeIn, DueAt, Inv;
      }
    } else if st.Query? {
      assert forall x :: x in st.due ==> x in h.outbox;
    }
  }

  /** In every run in which only the worker is about the row, arrivals and all other
      rows included, its history is its own: found due at each attempt, and
      changed by its own outcomes alone, so that the schedule of failures holds. */
  lemma {:induction false} HistoryIsTimely(h: Hub, sts: seq<Step>, k: nat)
    requires Inv(h) && Lawful(h, sts) && AsRead(h, k)
    requires forall i :: 0 <= i < |sts| ==> LeftAlone(sts[i], k)
    ensures Timely(Lookup(h.outbox, k), EventsIn(h, sts, k))
    ensures Lookup(Run(h, sts).outbox, k) == RowAfter(Lookup(h.outbox, k), EventsIn(h, sts, k))
    decreases |sts|
  {
    if sts != [] {
      var st := sts[0];
      NextInHistory(h, st, k);
      NextKeepsInv(h, st);
      hide Inv, Next, Settle, DueAt, OutcomeIn, AsRead, LeftAlone;
      HistoryIsTimely(Next(h, st), sts[1..], k);
      var rest := EventsIn(Next(h, st), sts[1..], k);
      if st.Handle? && h.hand.todo[0] == k {
        var e := Event(h.hand.now, OutcomeIn(h, st));
        assert EventsIn(h, sts, k) == [e] + rest;
        assert ([e] + rest)[0] == e && ([e] + rest)[1..] == rest;
      } else {
        assert EventsIn(h, sts, k) == rest;
      }
    }
  }
}
