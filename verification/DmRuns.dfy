/** Direct messages over whole runs, statement by statement: request handlers,
    background sends and the retry worker interleave freely. No statement of the
    hub deletes a conversation or a message. */
module DmRuns {
  import opened Bytes
  import opened Basics
  import opened DmMessages
  import opened Outbox

  datatype Body = Plain(content: string) | Direct(env: Sealed) | Group(env: Sealed)

  /** The worker's pass: when it queried, the rows as it read them, and those it
      has yet to handle. */
  datatype Hand = Hand(now: int, read: Table, todo: seq<nat>)

  /** The background sends of one row, a message to one hub: when its handler
      queued it, how many are in flight, and how many the handler has still to
      start. There is one for each member who takes delivery on that hub. */
  datatype Flight = Flight(id: Id, at: int, n: nat, more: nat)

  /** `seen`: the conversations that some request handler has found to exist or
      has just created. `used`: every queue key so far. */
  datatype Hub = Hub(t: Tables, seen: set<Id>, outbox: Table, used: set<nat>, flights: map<nat, Flight>, hand: Hand)

  datatype Step =
    | CreateConversation(conv: Id, convType: string)
    | Join(conv: Id, key: Key)
    | Leave(conv: Id, key: Key)
    | FindConversation(conv: Id)
    | Store(id: Id, conv: Id, sender: Key, body: Body, json: Json)
    | Enqueue(k: nat, id: Id, now: int)
    | Plan(k: nat, id: Id, now: int, sends: nat)
    | Start(k: nat)
    | Abandon(k: nat)
    | SentInBackground(k: nat)
    | FailedInBackground(k: nat)
    | Query(now: int, due: seq<nat>)
    | Handle(json: Json, accepted: bool)
    | Restart

  function MessageOf(conv: Id, sender: Key, body: Body, json: Json): Message {
    match body
    case Plain(content) => Message(conv, sender, Some(content), false, false, None)
    case Direct(env) => Message(conv, sender, None, true, false, Some(json.encode(env)))
    case Group(env) => Message(conv, sender, None, false, true, Some(json.encode(env)))
  }

  /** The sends of a row that are in flight. */
  function InFlight(h: Hub, k: nat): nat {
    if k in h.flights then h.flights[k].n else 0
  }

  /** Those and the ones still to be started. */
  function Open(h: Hub, k: nat): nat {
    if k in h.flights then h.flights[k].n + h.flights[k].more else 0
  }

  /** `send_dm` looks the conversation up and `receive_federated_dm` creates it
      if it must, both before the message is stored. The message has a fresh id,
      so its rows have fresh keys; its handler then takes member by member and hub
      by hub, queueing the row if it is not there and starting one background send
      each time, until it is through or returns early. An inbox copy has no
      background send. The worker queries again only after its pass. */
  predicate Allowed(h: Hub, st: Step) {
    match st
    case FindConversation(conv) => conv in h.t.convs
    case Store(_, conv, _, _, _) => conv in h.seen
    case Plan(k, id, _, _) => k !in h.used && id in h.t.messages
    case Start(k) => k in h.flights && h.flights[k].more > 0
    case Abandon(k) => k in h.flights
    case SentInBackground(k) => InFlight(h, k) > 0
    case FailedInBackground(k) => InFlight(h, k) > 0
    case Query(now, due) => h.hand.todo == [] && IsBatch(due, h.outbox, now)
    case Handle(_, _) => h.hand.todo != []
    case _ => true
  }

  /** Nobody waits for the worker: conversations, members, mirror copies, new messages
      and restarts may come at any moment of its pass. */
  lemma HandlersNeverWait(h: Hub, conv: Id, convType: string, key: Key, k: nat, id: Id, now: int, sends: nat)
    ensures Allowed(h, CreateConversation(conv, convType)) && Allowed(h, Join(conv, key)) && Allowed(h, Leave(conv, key))
    ensures Allowed(h, Enqueue(k, id, now)) && Allowed(h, Restart)
    ensures k !in h.used && id in h.t.messages ==> Allowed(h, Plan(k, id, now, sends))
    ensures conv in h.t.convs ==> Allowed(h, FindConversation(conv))
    ensures Open(h, k) > 0 ==> Allowed(h, Abandon(k)) && (Allowed(h, Start(k)) || Allowed(h, SentInBackground(k)))
  {
  }

  /** Found, a conversation may be stored to; joined and left, it has one member more or
      less; and a handler that returns early stops no send it has started. */
  lemma HandlersDoTheirPart(h: Hub, conv: Id, key: Key, other: (Id, Key), id: Id, body: Body, json: Json, k: nat)
    ensures Allowed(Next(h, FindConversation(conv)), Store(id, conv, key, body, json))
    ensures conv in h.t.convs ==> (conv, key) in Next(h, Join(conv, key)).t.members
    ensures (conv, key) !in Next(h, Leave(conv, key)).t.members
    ensures other != (conv, key) ==>
              && (other in Next(h, Join(conv, key)).t.members <==> other in h.t.members)
              && (other in Next(h, Leave(conv, key)).t.members <==> other in h.t.members)
    ensures InFlight(Next(h, Abandon(k)), k) == Open(Next(h, Abandon(k)), k) == InFlight(h, k)
  {
  }

  /** The row the worker has in hand, as it read it. */
  function InHand(h: Hub): Row
    requires h.hand.todo != []
  {
    if h.hand.todo[0] in h.hand.read then h.hand.read[h.hand.todo[0]] else Row(0, 0, 0, None)
  }

  function OutcomeIn(h: Hub, st: Step): Outcome
    requires st.Handle? && h.hand.todo != []
  {
    OutcomeOf(h.t, st.json, InHand(h).subject, st.accepted)
  }

  /** The UPDATE after a failure: from the attempts that were read, on the row as
      it is by then. */
  function Rewritten(r: Row, read: Row, now: int): Row {
    Fail(r.(attempts := read.attempts), now)
  }

  /** One row of the pass; statements on a row that is gone do nothing. */
  function Handled(h: Hub, o: Outcome): Hub
    requires h.hand.todo != []
  {
    var k, rest := h.hand.todo[0], h.hand.(todo := h.hand.todo[1..]);
    match o
    case Aborted => h.(hand := h.hand.(todo := []))
    case Missing => h.(outbox := h.outbox - {k}, hand := rest)
    case Delivered => h.(outbox := h.outbox - {k}, hand := rest)
    case Unreadable =>
      if k !in h.outbox then h.(hand := rest)
      else h.(outbox := h.outbox[k := h.outbox[k].(bounced := Some(h.hand.now))], hand := rest)
    case Failed =>
      if k !in h.outbox then h.(hand := rest)
      else h.(outbox := h.outbox[k := Rewritten(h.outbox[k], InHand(h), h.hand.now)], hand := rest)
  }

  /** `INSERT ... ON CONFLICT DO NOTHING`, under the foreign key to the message. */
  function Queued(h: Hub, k: nat, id: Id, now: int): Table {
    if k in h.outbox || id !in h.t.messages then h.outbox else h.outbox[k := Row(id, 0, now, None)]
  }

  /** One background send has ended. */
  function Landed(flights: map<nat, Flight>, k: nat): map<nat, Flight> {
    if k in flights && flights[k].n > 0 then flights[k := flights[k].(n := flights[k].n - 1)] else flights
  }

  /** Inserts that meet an existing key or a missing referenced row do nothing. */
  function Next(h: Hub, st: Step): Hub {
    match st
    case CreateConversation(conv, ct) => if conv in h.t.convs then h else h.(t := h.t.(convs := h.t.convs[conv := ct]))
    case Join(conv, key) => if conv in h.t.convs then h.(t := h.t.(members := h.t.members + {(conv, key)})) else h
    case Leave(conv, key) => h.(t := h.t.(members := h.t.members - {(conv, key)}))
    case FindConversation(conv) => h.(seen := h.seen + {conv})
    case Store(id, conv, sender, body, json) =>
      if id in h.t.messages then h
      else h.(t := h.t.(messages := h.t.messages[id := MessageOf(conv, sender, body, json)]))
    case Enqueue(k, id, now) => h.(outbox := Queued(h, k, id, now), used := h.used + {k})
    case Plan(k, id, now, sends) => h.(used := h.used + {k}, flights := h.flights[k := Flight(id, now, 0, sends)])
    case Start(k) =>
      if k !in h.flights || h.flights[k].more == 0 then h
      else
        var f := h.flights[k];
        h.(outbox := Queued(h, k, f.id, f.at), flights := h.flights[k := f.(n := f.n + 1, more := f.more - 1)])
    case Abandon(k) => if k in h.flights then h.(flights := h.flights[k := h.flights[k].(more := 0)]) else h
    case SentInBackground(k) => h.(outbox := h.outbox - {k}, flights := Landed(h.flights, k))
    case FailedInBackground(k) =>
      h.(outbox := if k in h.outbox && k in h.flights
                   then h.outbox[k := h.outbox[k].(attempts := 1, nextAt := h.flights[k].at + BACKOFF[0])] else h.outbox,
         flights := Landed(h.flights, k))
    case Query(now, due) => h.(hand := Hand(now, h.outbox, due))
    case Handle(_, _) => if h.hand.todo == [] then h else Handled(h, OutcomeIn(h, st))
    case Restart => h.(flights := map[], hand := h.hand.(todo := []))
  }

  function Run(h: Hub, sts: seq<Step>): Hub
    decreases |sts|
  {
    if sts == [] then h else Run(Next(h, sts[0]), sts[1..])
  }

  predicate Lawful(h: Hub, sts: seq<Step>)
    decreases |sts|
  {
    sts == [] || (Allowed(h, sts[0]) && Lawful(Next(h, sts[0]), sts[1..]))
  }

  lemma FirstThen(h: Hub, st: Step, sts: seq<Step>)
    ensures Run(h, [st] + sts) == Run(Next(h, st), sts)
    ensures Lawful(h, [st] + sts) <==> Allowed(h, st) && Lawful(Next(h, st), sts)
  {
    hide Next, Allowed;
    assert ([st] + sts)[0] == st && ([st] + sts)[1..] == sts;
  }

  lemma {:induction false} RunOn(h: Hub, a: seq<Step>, b: seq<Step>)
    ensures Run(h, a + b) == Run(Run(h, a), b)
    ensures Lawful(h, a + b) <==> Lawful(h, a) && Lawful(Run(h, a), b)
    decreases |a|
  {
    hide Next, Allowed;
    if a == [] {
      assert a + b == b;
    } else {
      assert a + b == [a[0]] + (a[1..] + b);
      FirstThen(h, a[0], a[1..] + b);
      RunOn(Next(h, a[0]), a[1..], b);
    }
  }

  // ---- The invariant ----------------------------------------------------------------

  /** Every message has its conversation and, if sealed, a ciphertext. */
  predicate Stored(h: Hub) {
    && h.seen <= h.t.convs.Keys
    && forall id :: id in h.t.messages ==>
         var m := h.t.messages[id];
         m.conv in h.t.convs && (m.isEncrypted || m.isGroupEncrypted ==> m.ciphertext.Some?)
  }

  /** Every row has its message, and is bounced at its eighth failure. */
  predicate Sane(h: Hub, rows: Table) {
    forall k :: k in rows ==> SaneRow(h, rows[k])
  }

  predicate SaneRow(h: Hub, r: Row) {
    r.subject in h.t.messages && (r.bounced.None? ==> r.attempts < MAX_FAILURES)
  }

  /** The rows in hand were read when they were due, and are not bounced. */
  predicate Held(h: Hub) {
    Distinct(h.hand.todo) && forall k :: k in h.hand.todo ==> HeldRow(h, k)
  }

  predicate HeldRow(h: Hub, k: nat) {
    && k in h.hand.read && h.hand.read[k].bounced.None? && DueAt(h.hand.read[k], h.hand.now)
    && (k in h.outbox ==> h.outbox[k].bounced.None?)
  }

  predicate Inv(h: Hub) {
    && Stored(h) && Sane(h, h.outbox) && Sane(h, h.hand.read) && Held(h)
    && h.outbox.Keys <= h.used && h.flights.Keys <= h.used && h.hand.read.Keys <= h.used
    && (forall k :: k in h.flights ==> h.flights[k].id in h.t.messages)
  }

  lemma MessagesStay(h: Hub, st: Step)
    ensures forall id :: id in h.t.messages ==> id in Next(h, st).t.messages && Next(h, st).t.messages[id] == h.t.messages[id]
  {
  }

  lemma NextKeepsStored(h: Hub, st: Step)
    requires Stored(h) && Allowed(h, st)
    ensures Stored(Next(h, st))
  {
    hide Handled, IsBatch;
    if st.Handle? && h.hand.todo != [] {
      HandledKeepsTables(h, OutcomeIn(h, st));
    }
  }

  lemma HandledKeepsTables(h: Hub, o: Outcome)
    requires h.hand.todo != []
    ensures Handled(h, o).t == h.t && Handled(h, o).seen == h.seen
  {
  }

  lemma RewrittenIsSane(h: Hub, r: Row, read: Row, now: int)
    requires SaneRow(h, r) && read.attempts < MAX_FAILURES
    ensures SaneRow(h, Rewritten(r, read, now)) && SaneRow(h, r.(bounced := Some(now)))
  {
  }

  lemma HandledKeepsSane(h: Hub, o: Outcome)
    requires Sane(h, h.outbox) && Sane(h, h.hand.read) && Held(h) && h.hand.todo != []
    ensures Sane(Handled(h, o), Handled(h, o).outbox)
  {
    var k := h.hand.todo[0];
    assert k in h.hand.todo && InHand(h) == h.hand.read[k];
    HandledKeepsTables(h, o);
    if k in h.outbox {
      RewrittenIsSane(h, h.outbox[k], InHand(h), h.hand.now);
    }
    hide Rewritten, Held;
  }

  lemma NextKeepsSane(h: Hub, st: Step)
    requires Inv(h) && Allowed(h, st)
    ensures Sane(Next(h, st), Next(h, st).outbox) && Sane(Next(h, st), Next(h, st).hand.read)
  {
    MessagesStay(h, st);
    if st.Handle? {
      HandledKeepsSane(h, OutcomeIn(h, st));
      HandledKeepsTables(h, OutcomeIn(h, st));
      assert Next(h, st).hand.read == h.hand.read;
    } else {
      OthersKeepSane(h, st);
    }
    hide OutcomeIn, Handled, IsBatch, Held, Stored, Next, Sane;
  }

  lemma OthersKeepSane(h: Hub, st: Step)
    requires Inv(h) && Allowed(h, st) && !st.Handle?
    ensures Sane(Next(h, st), Next(h, st).outbox) && Sane(Next(h, st), Next(h, st).hand.read)
  {
    var n := Next(h, st);
    MessagesStay(h, st);
    assert forall r :: SaneRow(h, r) ==> SaneRow(n, r);
    hide IsBatch, Held, Stored;
  }

  /** What a step of the worker leaves as it was. */
  lemma HandledIsOne(h: Hub, o: Outcome)
    requires h.hand.todo != []
    ensures var n, k := Handled(h, o), h.hand.todo[0];
            && n.outbox - {k} == h.outbox - {k} && n.flights == h.flights && n.used == h.used
            && n.hand.read == h.hand.read && n.hand.now == h.hand.now
            && n.hand.todo == if o.Aborted? then [] else h.hand.todo[1..]
    ensures forall k :: k != h.hand.todo[0] ==> (k in Handled(h, o).outbox <==> k in h.outbox)
    ensures forall k :: k != h.hand.todo[0] && k in h.outbox ==> Handled(h, o).outbox[k] == h.outbox[k]
  {
    hide Rewritten, InHand;
  }

  lemma HandledKeepsHeld(h: Hub, o: Outcome)
    requires Held(h) && h.hand.todo != []
    ensures Held(Handled(h, o))
  {
    var n, todo := Handled(h, o), h.hand.todo;
    HandledIsOne(h, o);
    hide Handled, DueAt;
    forall k | k in n.hand.todo ensures HeldRow(n, k) {
      assert k in todo && k != todo[0];
    }
  }

  lemma NextKeepsHeld(h: Hub, st: Step)
    requires Inv(h) && Allowed(h, st)
    ensures Held(Next(h, st))
  {
    if st.Handle? {
      HandledKeepsHeld(h, OutcomeIn(h, st));
    } else if st.Query? {
      assert forall k :: k in st.due ==> k in h.outbox && DueAt(h.outbox[k], st.now);
      assert forall k :: k in st.due ==> HeldRow(Next(h, st), k);
    } else {
      OthersKeepHeld(h, st);
    }
    hide Held, Next, OutcomeIn;
  }

  lemma OthersKeepHeld(h: Hub, st: Step)
    requires Inv(h) && Allowed(h, st) && !st.Handle? && !st.Query?
    ensures Held(Next(h, st))
  {
    hide Sane, Stored, DueAt;
    forall k | k in Next(h, st).hand.todo ensures HeldRow(Next(h, st), k) {
      assert HeldRow(h, k);
      assert k in h.used;
    }
  }

  lemma NextKeepsKeys(h: Hub, st: Step)
    requires Inv(h) && Allowed(h, st)
    ensures var n := Next(h, st);
            && n.outbox.Keys <= n.used && n.flights.Keys <= n.used && n.hand.read.Keys <= n.used
            && forall k :: k in n.flights ==> n.flights[k].id in n.t.messages
  {
    hide OutcomeIn, Stored, Sane, Held, IsBatch, Rewritten, InHand;
    if st.Handle? {
      assert h.hand.todo[0] in h.outbox ==> h.hand.todo[0] in h.used;
    }
  }

  lemma NextKeepsInv(h: Hub, st: Step)
    requires Inv(h) && Allowed(h, st)
    ensures Inv(Next(h, st))
  {
    NextKeepsStored(h, st);
    NextKeepsSane(h, st);
    NextKeepsHeld(h, st);
    NextKeepsKeys(h, st);
    hide Stored, Sane, Held, Next;
  }

  lemma {:induction false} RunKeepsInv(h: Hub, sts: seq<Step>)
    requires Inv(h) && Lawful(h, sts)
    ensures Inv(Run(h, sts))
    decreases |sts|
  {
    if sts != [] {
      NextKeepsInv(h, sts[0]);
      hide Inv, Next, Allowed;
      RunKeepsInv(Next(h, sts[0]), sts[1..]);
    }
  }

  // ---- One row cannot hold the others ---------------------------------------------------

  /** A stored message of a reachable state is there with its conversation. It is
      unreadable exactly when the worker's parser refuses a ciphertext that was
      stored. */
  lemma StoredMessagesLoad(h: Hub, json: Json, id: Id)
    requires Stored(h) && id in h.t.messages
    ensures !Orphaned(h.t, id)
    ensures !LoadEnvelope(h.t, json, id).DbError? && !LoadEnvelope(h.t, json, id).Gone?
    ensures LoadEnvelope(h.t, json, id).Unreadable? <==>
            var m := h.t.messages[id];
            || (m.isEncrypted && json.parseDirect(m.ciphertext.value).None?)
            || (m.isGroupEncrypted && json.parseGroup(m.ciphertext.value).None?)
  {
    LoadMeans(h.t, json, id);
  }

  lemma HandleGoesOn(h: Hub, st: Step)
    requires Inv(h) && st.Handle? && h.hand.todo != []
    ensures !OutcomeIn(h, st).Aborted? && !OutcomeIn(h, st).Missing?
  {
    assert h.hand.todo[0] in h.hand.todo && HeldRow(h, h.hand.todo[0]);
    StoredMessagesLoad(h, st.json, InHand(h).subject);
  }

  /** So after any run, a step of the worker handles one row, leaves every other row
      alone, and leaves the rest of its pass to be handled: no row ends a pass,
      whatever version of the code reads the envelopes. */
  lemma NoRowStallsTheQueue(h: Hub, sts: seq<Step>, st: Step)
    requires Inv(h) && Lawful(h, sts + [st]) && st.Handle?
    ensures var g, n := Run(h, sts), Run(h, sts + [st]);
            && g.hand.todo != [] && n.hand.todo == g.hand.todo[1..]
            && n.outbox - {g.hand.todo[0]} == g.outbox - {g.hand.todo[0]}
  {
    RunOn(h, sts, [st]);
    RunKeepsInv(h, sts);
    var g := Run(h, sts);
    FirstThen(g, st, []);
    assert [st] + [] == [st];
    HandleGoesOn(g, st);
    HandledIsOne(g, OutcomeIn(g, st));
    hide Run, Lawful, Inv, OutcomeIn, Handled;
  }

  // ---- A pass with nothing in between ------------------------------------------------------

  /** The worker handling the rest of its pass undisturbed. */
  function Handles(json: Json, accepts: nat -> bool, ks: seq<nat>): seq<Step> {
    if ks == [] then [] else [Handle(json, accepts(ks[0]))] + Handles(json, accepts, ks[1..])
  }

  /** The rows in hand are as they were read. */
  predicate Unchanged(h: Hub) {
    forall k :: k in h.hand.todo ==> k in h.outbox && k in h.hand.read && h.outbox[k] == h.hand.read[k]
  }

  lemma {:induction false} HandlesSettle(h: Hub, json: Json, accepts: nat -> bool)
    requires Inv(h) && Unchanged(h)
    ensures var sts := Handles(json, accepts, h.hand.todo);
            var world := World(h.hand.read, h.t, json, accepts);
            && Lawful(h, sts)
            && Run(h, sts) == h.(outbox := Settled(h.outbox, Keys(h.hand.todo), world, h.hand.now),
                                 hand := h.hand.(todo := []))
    decreases |h.hand.todo|
  {
    var world := World(h.hand.read, h.t, json, accepts);
    var todo := h.hand.todo;
    if todo == [] {
      assert Settled(h.outbox, {}, world, h.hand.now) == h.outbox;
      assert Keys(todo) == {};
    } else {
      var st := Handle(json, accepts(todo[0]));
      var n := Next(h, st);
      HandleGoesOn(h, st);
      assert todo[0] in todo && world(todo[0]) == OutcomeIn(h, st);
      HandleSettles(h, st);
      NextKeepsInv(h, st);
      hide Inv, OutcomeIn, Settle, Settled, Keys, World;
      FirstThen(h, st, Handles(json, accepts, todo[1..]));
      HandlesSettle(n, json, accepts);
      SettledCons(h.outbox, todo, world, h.hand.now);
    }
  }

  lemma HandleSettles(h: Hub, st: Step)
    requires Inv(h) && st.Handle? && h.hand.todo != [] && Unchanged(h)
    ensures var n, k := Next(h, st), h.hand.todo[0];
            && k in h.outbox && Unchanged(n)
            && n == h.(outbox := Put(h.outbox, k, Settle(h.outbox[k], OutcomeIn(h, st), h.hand.now)),
                       hand := h.hand.(todo := h.hand.todo[1..]))
  {
    HandleGoesOn(h, st);
    var k, todo := h.hand.todo[0], h.hand.todo;
    assert k in todo && forall x :: x in todo[1..] ==> x in todo && x != k;
    assert h.outbox[k].(attempts := InHand(h).attempts) == h.outbox[k];
    hide OutcomeIn, Inv, Fail;
  }

  lemma SettledCons(rows: Table, ks: seq<nat>, world: nat -> Outcome, now: int)
    requires ks != [] && Distinct(ks) && ks[0] in rows
    ensures Settled(Put(rows, ks[0], Settle(rows[ks[0]], world(ks[0]), now)), Keys(ks[1..]), world, now) ==
            Settled(rows, Keys(ks), world, now)
  {
    hide Settle;
    assert ks == [ks[0]] + ks[1..];
    assert Keys(ks) == Keys(ks[1..]) + {ks[0]} && ks[0] !in Keys(ks[1..]);
  }

  /** Undisturbed, the worker's steps are one pass over the table. */
  lemma UndisturbedIsOnePass(h: Hub, now: int, due: seq<nat>, json: Json, accepts: nat -> bool)
    requires Inv(h) && Allowed(h, Query(now, due))
    ensures var sts := [Query(now, due)] + Handles(json, accepts, due);
            var p := Pass(now, due, World(h.outbox, h.t, json, accepts));
            Lawful(h, sts) && Run(h, sts).outbox == After(h.outbox, p) == Passed(h.outbox, p)
  {
    var st := Query(now, due);
    NextKeepsInv(h, st);
    FirstThen(h, st, Handles(json, accepts, due));
    HandlesSettle(Next(h, st), json, accepts);
    forall i | 0 <= i < |due| ensures !Orphaned(h.t, h.outbox[due[i]].subject) {
      StoredMessagesLoad(h, json, h.outbox[due[i]].subject);
    }
    RowsAreIndependentIff(h.outbox, h.t, json, accepts, now, due);
    hide Inv, World, Settled;
  }

  // ---- The first send ----------------------------------------------------------------------

  /** A message to one hub, its row queued before the send is started: delivered, the
      row is gone, and failed, it is the first failure, to be retried ten seconds
      after it was queued. No other row is touched. */
  lemma FirstSendEnds(h: Hub, k: nat, id: Id, now: int)
    requires Inv(h) && k !in h.used && id in h.t.messages
    ensures var sts := [Plan(k, id, now, 1), Start(k)];
            && Lawful(h, sts + [SentInBackground(k)]) && Lawful(h, sts + [FailedInBackground(k)])
            && k in Run(h, sts).outbox && Run(h, sts).outbox[k] == Row(id, 0, now, None)
            && Run(h, sts + [SentInBackground(k)]).outbox == h.outbox
            && Run(h, sts + [FailedInBackground(k)]).outbox == h.outbox[k := Row(id, 1, now + 10, None)]
  {
    FirstSteps(h, k, id, now);
    var plan, start := Plan(k, id, now, 1), Start(k);
    hide Next, Allowed, Inv;
    TwoSteps(h, plan, start);
    ThreeSteps(h, plan, start, SentInBackground(k));
    ThreeSteps(h, plan, start, FailedInBackground(k));
  }

  lemma FirstSteps(h: Hub, k: nat, id: Id, now: int)
    requires Inv(h) && k !in h.used && id in h.t.messages
    ensures var f := Next(Next(h, Plan(k, id, now, 1)), Start(k));
            && Allowed(h, Plan(k, id, now, 1)) && Allowed(Next(h, Plan(k, id, now, 1)), Start(k))
            && Allowed(f, SentInBackground(k)) && Allowed(f, FailedInBackground(k))
            && f.outbox == h.outbox[k := Row(id, 0, now, None)]
            && Next(f, SentInBackground(k)).outbox == h.outbox
            && Next(f, FailedInBackground(k)).outbox == h.outbox[k := Row(id, 1, now + 10, None)]
  {
    assert k !in h.outbox;
    hide Inv, OutcomeIn, IsBatch, Handled;
    var f := Next(Next(h, Plan(k, id, now, 1)), Start(k));
    assert f.outbox == h.outbox[k := Row(id, 0, now, None)];
    assert f.outbox - {k} == h.outbox;
  }

  lemma TwoSteps(h: Hub, a: Step, b: Step)
    ensures Run(h, [a, b]) == Next(Next(h, a), b)
    ensures Lawful(h, [a, b]) <==> Allowed(h, a) && Allowed(Next(h, a), b)
  {
    hide Next, Allowed;
    assert [a, b] == [a] + [b] && [b] == [b] + [];
    FirstThen(h, a, [b]);
    FirstThen(Next(h, a), b, []);
  }

  lemma ThreeSteps(h: Hub, a: Step, b: Step, c: Step)
    ensures Run(h, [a, b] + [c]) == Next(Next(Next(h, a), b), c)
    ensures Lawful(h, [a, b] + [c]) <==> Allowed(h, a) && Allowed(Next(h, a), b) && Allowed(Next(Next(h, a), b), c)
  {
    TwoSteps(h, a, b);
    hide Next, Allowed;
    RunOn(h, [a, b], [c]);
    assert [c] == [c] + [];
    FirstThen(Run(h, [a, b]), c, []);
  }

  // ---- What is queued is sent as it was written --------------------------------------------

  lemma {:induction false} StoredStays(h: Hub, sts: seq<Step>, id: Id)
    requires id in h.t.messages
    ensures id in Run(h, sts).t.messages && Run(h, sts).t.messages[id] == h.t.messages[id]
    decreases |sts|
  {
    if sts != [] {
      MessagesStay(h, sts[0]);
      hide Next;
      StoredStays(Next(h, sts[0]), sts[1..], id);
    }
  }

  /** A parser that reads what the writer wrote. */
  ghost predicate Reads(reader: Json, writer: Json) {
    forall e: Sealed :: reader.parseDirect(writer.encode(e)) == Some(e) && reader.parseGroup(writer.encode(e)) == Some(e)
  }

  /** What a stored message loads as. */
  lemma StoredIsRebuilt(t: Tables, id: Id, conv: Id, sender: Key, body: Body, writer: Json, reader: Json)
    requires id in t.messages && t.messages[id] == MessageOf(conv, sender, body, writer) && conv in t.convs
    requires Reads(reader, writer)
    ensures var r := LoadEnvelope(t, reader, id);
            && r.Ready? && r.dm.id == id && r.dm.conv == conv && r.dm.sender == sender
            && match body
               case Plain(content) => r.dm.content == Some(content) && r.dm.direct.None? && r.dm.group.None?
               case Direct(env) => r.dm.content.None? && r.dm.direct == Some(env) && r.dm.group.None?
               case Group(env) => r.dm.content.None? && r.dm.direct.None? && r.dm.group == Some(env)
  {
    hide Roster;
  }

  /** The conversation's type, and who is in it, as the tables stand. */
  lemma RosterIsMembers(t: Tables, j: Json, id: Id)
    requires LoadEnvelope(t, j, id).Ready?
    ensures id in t.messages && t.messages[id].conv in t.convs
    ensures var dm, conv := LoadEnvelope(t, j, id).dm, t.messages[id].conv;
            dm.convType == t.convs[conv] && forall key :: key in dm.members <==> (conv, key) in t.members
  {
    hide Reopened;
    var conv := t.messages[id].conv;
    assert forall key :: key in Roster(t, conv) <==> (conv, key) in t.members by {
      forall key | (conv, key) in t.members ensures key in Roster(t, conv) {
        assert (conv, key).1 == key;
      }
    }
  }

  /** The step lets no one into the conversation and no one out. */
  predicate KeepsMembers(st: Step, conv: Id) {
    !(st.Join? && st.conv == conv) && !(st.Leave? && st.conv == conv)
  }

  lemma ConversationStays(h: Hub, st: Step, conv: Id)
    requires conv in h.t.convs
    ensures var n := Next(h, st);
            && conv in n.t.convs && n.t.convs[conv] == h.t.convs[conv]
            && (KeepsMembers(st, conv) ==> forall key :: (conv, key) in n.t.members <==> (conv, key) in h.t.members)
  {
    hide OutcomeIn;
    if st.Handle? && h.hand.todo != [] {
      HandledKeepsTables(h, OutcomeIn(h, st));
      hide Handled;
    }
  }

  lemma {:induction false} ConversationKeepsType(h: Hub, sts: seq<Step>, conv: Id)
    requires conv in h.t.convs
    ensures var g := Run(h, sts);
            && conv in g.t.convs && g.t.convs[conv] == h.t.convs[conv]
            && ((forall i :: 0 <= i < |sts| ==> KeepsMembers(sts[i], conv)) ==>
                  forall key :: (conv, key) in g.t.members <==> (conv, key) in h.t.members)
    decreases |sts|
  {
    if sts != [] {
      ConversationStays(h, sts[0], conv);
      ConversationKeepsType(Next(h, sts[0]), sts[1..], conv);
      hide Next, KeepsMembers;
    }
  }

  /** However late the retry, a message is rebuilt with the conversation, its type,
      the sender and the body it was stored with, for just the keys that are
      members by then: those at the time of storing, unless someone has come
      or gone. */
  lemma QueuedIsRebuilt(h: Hub, st: Step, sts: seq<Step>, reader: Json)
    requires Inv(h) && st.Store? && st.id !in h.t.messages && Lawful(h, [st] + sts) && Reads(reader, st.json)
    ensures var r := LoadEnvelope(Run(h, [st] + sts).t, reader, st.id);
            && r.Ready? && r.dm.id == st.id && r.dm.conv == st.conv && r.dm.sender == st.sender
            && match st.body
               case Plain(content) => r.dm.content == Some(content) && r.dm.direct.None? && r.dm.group.None?
               case Direct(env) => r.dm.content.None? && r.dm.direct == Some(env) && r.dm.group.None?
               case Group(env) => r.dm.content.None? && r.dm.direct.None? && r.dm.group == Some(env)
    ensures st.conv in h.t.convs
    ensures var g := Run(h, [st] + sts);
            var r := LoadEnvelope(g.t, reader, st.id);
            r.Ready? ==>
              && r.dm.convType == h.t.convs[st.conv]
              && (forall key :: key in r.dm.members <==> (st.conv, key) in g.t.members)
              && ((forall i :: 0 <= i < |sts| ==> KeepsMembers(sts[i], st.conv)) ==>
                    forall key :: key in r.dm.members <==> (st.conv, key) in h.t.members)
  {
    var all := [st] + sts;
    FirstThen(h, st, sts);
    StoredStays(Next(h, st), sts, st.id);
    RunKeepsInv(h, all);
    var g := Run(h, all);
    assert g.t.messages[st.id] == MessageOf(st.conv, st.sender, st.body, st.json) && g.t.messages[st.id].conv in g.t.convs;
    assert st.conv in h.t.convs && Next(h, st).t.convs == h.t.convs && Next(h, st).t.members == h.t.members;
    ConversationKeepsType(Next(h, st), sts, st.conv);
    hide Run, Lawful, Inv, Next, Allowed, LoadEnvelope, Reads, KeepsMembers;
    StoredIsRebuilt(g.t, st.id, st.conv, st.sender, st.body, st.json, reader);
    RosterIsMembers(g.t, reader, st.id);
  }
}
