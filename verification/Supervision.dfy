/** Automatic restarts of hubs that stopped sending heartbeats. */
module Supervision {
  import opened Bytes

  const OFFLINE_THRESHOLD_SECS: int := 180
  const BASE_BACKOFF_SECS: int := 10
  const MAX_BACKOFF_SECS: int := 300
  const MAX_ATTEMPTS: int := 5

  datatype Decision = Healthy | Backoff | Restart | GiveUp

  function Pow2(n: nat): (p: nat)
    ensures p > 0
  {
    if n == 0 then 1 else 2 * Pow2(n - 1)
  }

  function Uncapped(attempts: int): int {
    BASE_BACKOFF_SECS * Pow2(if attempts < 0 then 0 else attempts)
  }

  function BackoffSecs(attempts: int): int {
    if Uncapped(attempts) < MAX_BACKOFF_SECS then Uncapped(attempts) else MAX_BACKOFF_SECS
  }

  function Decide(lastSeen: int, attempts: int, lastRestart: Option<int>, now: int): Decision {
    if now - lastSeen < OFFLINE_THRESHOLD_SECS then Healthy
    else if attempts >= MAX_ATTEMPTS then GiveUp
    else if lastRestart.Some? && now - lastRestart.value < BackoffSecs(attempts) then Backoff
    else Restart
  }

  /** The part of a hub's row that supervision reads and writes. `listed` says it
      is neither suspended nor deleted and has a port. */
  datatype Hub = Hub(listed: bool, enabled: bool, attempts: int, lastRestart: Option<int>, lastSeen: int)

  function DecideFor(h: Hub, now: int): Decision {
    if h.listed && h.enabled then Decide(h.lastSeen, h.attempts, h.lastRestart, now) else Healthy
  }

  function Supervised(h: Hub, now: int): Hub {
    match DecideFor(h, now)
    case Healthy => h
    case Backoff => h
    case Restart => h.(attempts := h.attempts + 1, lastRestart := Some(now))
    case GiveUp => h.(enabled := false)
  }

  lemma ListedIsDecided(h: Hub, now: int)
    ensures h.listed && h.enabled ==> DecideFor(h, now) == Decide(h.lastSeen, h.attempts, h.lastRestart, now)
    ensures !(h.listed && h.enabled) ==> DecideFor(h, now) == Healthy
    ensures DecideFor(h, now) == Healthy || DecideFor(h, now) == Backoff ==> Supervised(h, now) == h
    ensures DecideFor(h, now) == Restart ==> Supervised(h, now) == h.(attempts := h.attempts + 1, lastRestart := Some(now))
    ensures DecideFor(h, now) == GiveUp ==> Supervised(h, now) == h.(enabled := false)
  {
  }

  /** The seconds to wait after a restart, by the attempts made so far. */
  const WAITS: seq<int> := [10, 20, 40, 80, 160]

  /** A hub that is unlisted, disabled or was seen in the last three minutes is left
      alone. A silent one is restarted up to five times, each time exactly when
      its wait is over, and then disabled. */
  predicate Judged(h: Hub, after: Hub, restart: bool, now: int)
    requires 0 <= h.attempts <= 5
  {
    && (!h.listed || !h.enabled || now - h.lastSeen < 180 ==> !restart && after == h)
    && (h.listed && h.enabled && now - h.lastSeen >= 180 ==>
          if h.attempts == 5 then !restart && after == h.(enabled := false)
          else if h.lastRestart.Some? && now - h.lastRestart.value < WAITS[h.attempts] then !restart && after == h
          else restart && after == h.(attempts := h.attempts + 1, lastRestart := Some(now)))
  }

  lemma SupervisedIsJudged(h: Hub, now: int)
    requires 0 <= h.attempts <= 5
    ensures Judged(h, Supervised(h, now), DecideFor(h, now) == Restart, now)
  {
    AttemptsStayBounded(h, []);
    Pow2Values();
  }

  class Monitor {
    var hubs: map<nat, Hub>

    /** One pass: every listed hub is judged by its own row; the hubs a restart is
        issued for are returned. */
    method Tick(now: int) returns (restarted: set<nat>)
      modifies this
      ensures hubs == map id | id in old(hubs) :: Supervised(old(hubs)[id], now)
      ensures restarted == set id | id in old(hubs) && DecideFor(old(hubs)[id], now) == Restart
      ensures forall id :: id in old(hubs) && 0 <= old(hubs)[id].attempts <= 5 ==>
                id in hubs && Judged(old(hubs)[id], hubs[id], id in restarted, now)
    {
      forall id | id in hubs {
        ListedIsDecided(hubs[id], now);
      }
      hide Judged, Decide, DecideFor, Supervised;
      restarted := {};
      var left := set id | id in hubs && hubs[id].listed && hubs[id].enabled;
      while left != {}
        invariant left <= hubs.Keys && hubs.Keys == old(hubs).Keys
        invariant forall id :: id in left ==> hubs[id] == old(hubs)[id] && hubs[id].listed && hubs[id].enabled
        invariant forall id :: id in hubs && id !in left ==> hubs[id] == Supervised(old(hubs)[id], now)
        invariant forall id :: id in restarted <==> id in hubs && id !in left && DecideFor(old(hubs)[id], now) == Restart
        decreases |left|
      {
        var id :| id in left;
        var h := hubs[id];
        match Decide(h.lastSeen, h.attempts, h.lastRestart, now) {
          case Healthy =>
          case Backoff =>
          case Restart =>
            restarted := restarted + {id};
            hubs := hubs[id := h.(attempts := h.attempts + 1, lastRestart := Some(now))];
          case GiveUp =>
            hubs := hubs[id := h.(enabled := false)];
        }
        left := left - {id};
      }
      forall id | id in old(hubs) && 0 <= old(hubs)[id].attempts <= 5
        ensures Judged(old(hubs)[id], hubs[id], id in restarted, now)
      {
        SupervisedIsJudged(old(hubs)[id], now);
      }
    }
  }

  // ---- Runs of one hub -------------------------------------------------------------

  datatype Event =
    | Tick(now: int)
    | Heartbeat(now: int)      // the hub is seen: attempts go back to zero
    | ForceRestart(now: int)   // an operator restarts it by hand
    | Relist(listed: bool)     // suspended, resumed, deleted

  function After(h: Hub, e: Event): Hub {
    match e
    case Tick(now) => Supervised(h, now)
    case Heartbeat(now) => h.(lastSeen := now, attempts := if h.attempts > 0 then 0 else h.attempts)
    case ForceRestart(now) => h.(attempts := 0, lastRestart := Some(now), enabled := true)
    case Relist(l) => h.(listed := l)
  }

  function AfterAll(h: Hub, es: seq<Event>): Hub
    decreases |es|
  {
    if es == [] then h else AfterAll(After(h, es[0]), es[1..])
  }

  predicate Restarts(h: Hub, e: Event) {
    e.Tick? && DecideFor(h, e.now) == Restart
  }

  /** When supervision restarts the hub during a run. */
  function RestartTimes(h: Hub, es: seq<Event>): seq<int>
    decreases |es|
  {
    if es == [] then []
    else (if Restarts(h, es[0]) then [es[0].now] else []) + RestartTimes(After(h, es[0]), es[1..])
  }

  predicate Resets(e: Event) {
    e.Heartbeat? || e.ForceRestart?
  }

  lemma Pow2Values()
    ensures Pow2(0) == 1 && Pow2(1) == 2 && Pow2(2) == 4 && Pow2(3) == 8 && Pow2(4) == 16 && Pow2(5) == 32
  {
    assert Pow2(1) == 2 * Pow2(0);
    assert Pow2(2) == 2 * Pow2(1);
    assert Pow2(3) == 2 * Pow2(2);
    assert Pow2(4) == 2 * Pow2(3);
    assert Pow2(5) == 2 * Pow2(4);
  }

  /** A decision never needs the cap, let alone a power that overflows: attempts
      stay within five in every run, and the back-off consulted is the plain
      doubling, at most 160 seconds. */
  lemma {:induction false} AttemptsStayBounded(h: Hub, es: seq<Event>)
    requires 0 <= h.attempts <= MAX_ATTEMPTS
    ensures 0 <= AfterAll(h, es).attempts <= MAX_ATTEMPTS
    ensures forall a :: 0 <= a < MAX_ATTEMPTS ==> BackoffSecs(a) == Uncapped(a) <= 160
    decreases |es|
  {
    Pow2Values();
    forall a | 0 <= a < MAX_ATTEMPTS ensures BackoffSecs(a) == Uncapped(a) <= 160 {
      assert a == 0 || a == 1 || a == 2 || a == 3 || a == 4;
    }
    if es != [] {
      AttemptsStayBounded(After(h, es[0]), es[1..]);
    }
  }

  /** What holds of the restarts of a run that starts at `h`. */
  predicate Spaced(h: Hub, ts: seq<int>) {
    && h.attempts + |ts| <= MAX_ATTEMPTS
    && (ts != [] && h.lastRestart.Some? ==> ts[0] - h.lastRestart.value >= Uncapped(h.attempts))
    && forall k :: 0 <= k < |ts| - 1 ==> ts[k + 1] - ts[k] >= Uncapped(h.attempts + k + 1)
  }

  /** Between two resets supervision restarts a hub at most five times, counting
      from its attempts, each at least the doubled back-off after the one before. */
  lemma {:induction false} RestartsAreSpaced(h: Hub, es: seq<Event>)
    requires 0 <= h.attempts <= MAX_ATTEMPTS
    requires forall i :: 0 <= i < |es| ==> !Resets(es[i])
    ensures Spaced(h, RestartTimes(h, es))
    decreases |es|
  {
    if es != [] {
      hide Spaced, Uncapped, Decide;
      StepWaits(h, es[0]);
      var next := After(h, es[0]);
      RestartsAreSpaced(next, es[1..]);
      var ts, rest := RestartTimes(h, es), RestartTimes(next, es[1..]);
      if Restarts(h, es[0]) {
        assert ts == [es[0].now] + rest;
        hide *;
        SpacedCons(h, next, es[0].now, rest);
      } else {
        assert ts == rest;
        hide *;
        SpacedSame(h, next, rest);
      }
    }
  }

  lemma SpacedSame(h: Hub, next: Hub, rest: seq<int>)
    requires Spaced(next, rest) && next.attempts == h.attempts && next.lastRestart == h.lastRestart
    ensures Spaced(h, rest)
  {
  }

  lemma SpacedCons(h: Hub, next: Hub, now: int, rest: seq<int>)
    requires Spaced(next, rest) && next.attempts == h.attempts + 1 && next.lastRestart == Some(now)
    requires h.lastRestart.Some? ==> now - h.lastRestart.value >= Uncapped(h.attempts)
    ensures Spaced(h, [now] + rest)
  {
    hide Uncapped;
    var ts := [now] + rest;
    forall k | 0 <= k < |ts| - 1 ensures ts[k + 1] - ts[k] >= Uncapped(h.attempts + k + 1) {
      if k > 0 {
        assert rest[k - 1 + 1] - rest[k - 1] >= Uncapped(next.attempts + (k - 1) + 1);
      }
    }
  }

  /** A restart comes no sooner than the back-off after the last one, and is the
      only thing between resets that changes either number. */
  lemma StepWaits(h: Hub, e: Event)
    requires 0 <= h.attempts <= MAX_ATTEMPTS && !Resets(e)
    ensures var next := After(h, e);
            if Restarts(h, e) then
              && h.attempts < MAX_ATTEMPTS && next.attempts == h.attempts + 1 && next.lastRestart == Some(e.now)
              && (h.lastRestart.Some? ==> e.now - h.lastRestart.value >= Uncapped(h.attempts))
            else next.attempts == h.attempts && next.lastRestart == h.lastRestart
  {
    AttemptsStayBounded(h, []);
    hide Uncapped, BackoffSecs;
    if Restarts(h, e) {
      assert BackoffSecs(h.attempts) == Uncapped(h.attempts);
    }
  }

  /** From a heartbeat or a restart by hand on, the k-th and the next restart are
      at least ten seconds times two to the k apart. */
  lemma RestartsAfterReset(h: Hub, reset: Event, es: seq<Event>, k: nat)
    requires h.attempts >= 0 && (reset.Heartbeat? || reset.ForceRestart?)
    requires forall i :: 0 <= i < |es| ==> !es[i].Heartbeat? && !es[i].ForceRestart?
    ensures var ts := RestartTimes(After(h, reset), es);
            |ts| <= 5 && (1 <= k < |ts| ==> ts[k] - ts[k - 1] >= 10 * Pow2(k))
  {
    RestartsAreSpaced(After(h, reset), es);
  }

  // ---- A hub that stays silent ---------------------------------------------------------

  /** Nothing but ticks, none more than `gap` seconds after the one before. */
  predicate Ticking(es: seq<Event>, since: int, gap: int)
    decreases |es|
  {
    es == [] || (es[0].Tick? && since <= es[0].now <= since + gap && Ticking(es[1..], es[0].now, gap))
  }

  function LastTick(es: seq<Event>, since: int): int
    decreases |es|
  {
    if es == [] then since else LastTick(es[1..], match es[0] case Tick(now) => now case _ => since)
  }

  /** Listed and enabled, and silent for three minutes at `at`. */
  predicate Silent(h: Hub, at: int) {
    && h.listed && h.enabled && 0 <= h.attempts <= 5 && at - h.lastSeen >= 180
    && (h.lastRestart.Some? ==> h.lastRestart.value <= at)
  }

  /** When the next restart falls due. */
  function NextDue(h: Hub, at: int): int
    requires 0 <= h.attempts <= 5
  {
    if h.attempts < 5 && h.lastRestart.Some? && h.lastRestart.value + WAITS[h.attempts] > at
    then h.lastRestart.value + WAITS[h.attempts] else at
  }

  /** The waits that follow attempt `a`, each with a tick to end it. */
  function WaitsAfter(a: nat, gap: int): int
    requires a <= 5
    decreases 5 - a
  {
    if a >= 4 then 0 else WAITS[a + 1] + gap + WaitsAfter(a + 1, gap)
  }

  /** By when the hub is given up: the next restart, those after it, and a tick
      that finds no attempt left. */
  function Deadline(h: Hub, at: int, gap: int): int
    requires 0 <= h.attempts <= 5
  {
    NextDue(h, at) + (if h.attempts < 5 then gap else 0) + WaitsAfter(h.attempts, gap) + gap
  }

  /** From the moment it is silent: the waits left, and a tick for each and one more. */
  lemma DeadlineBound(h: Hub, at: int, gap: int)
    requires Silent(h, at) && gap >= 0
    ensures Deadline(h, at, gap) <= at + [310, 300, 280, 240, 160, 0][h.attempts] + (6 - h.attempts) * gap
  {
    assert WaitsAfter(3, gap) == 160 + gap;
    assert WaitsAfter(2, gap) == 80 + gap + WaitsAfter(3, gap);
    assert WaitsAfter(1, gap) == 40 + gap + WaitsAfter(2, gap);
    assert WaitsAfter(0, gap) == 20 + gap + WaitsAfter(1, gap);
    var a := h.attempts;
    assert a == 0 || a == 1 || a == 2 || a == 3 || a == 4 || a == 5;
  }

  /** What a tick does to a silent hub: a restart when one is due, otherwise
      nothing until the attempts are used up. */
  lemma TickOfSilent(h: Hub, at: int, now: int, gap: int)
    requires Silent(h, at) && at <= now <= at + gap
    ensures var next := After(h, Event.Tick(now));
            if h.attempts == 5 then !next.enabled && next.attempts == 5 && !Restarts(h, Event.Tick(now))
            else
              && Silent(next, now) && Deadline(next, now, gap) <= Deadline(h, at, gap)
              && (Restarts(h, Event.Tick(now)) <==> now >= NextDue(h, at))
              && next.attempts == h.attempts + (if Restarts(h, Event.Tick(now)) then 1 else 0)
              && (!Restarts(h, Event.Tick(now)) ==> NextDue(next, now) == NextDue(h, at))
              && (Restarts(h, Event.Tick(now)) && next.attempts < 5 ==> NextDue(next, now) == now + WAITS[next.attempts])
  {
    SupervisedIsJudged(h, now);
    hide Supervised, DecideFor;
  }

  /** Restarts that come in time: the first at most a tick after it is due, each
      other at most a tick after its wait. */
  predicate Prompt(h: Hub, at: int, gap: int, ts: seq<int>)
    requires 0 <= h.attempts <= 5
  {
    && h.attempts + |ts| <= 5
    && (ts != [] ==> NextDue(h, at) <= ts[0] <= NextDue(h, at) + gap)
    && forall k :: 1 <= k < |ts| ==> WAITS[h.attempts + k] <= ts[k] - ts[k - 1] <= WAITS[h.attempts + k] + gap
  }

  lemma PromptSame(h: Hub, at: int, next: Hub, now: int, gap: int, rest: seq<int>)
    requires 0 <= h.attempts <= 5 && next.attempts == h.attempts && NextDue(next, now) == NextDue(h, at)
    requires Prompt(next, now, gap, rest)
    ensures Prompt(h, at, gap, rest)
  {
  }

  lemma PromptSoFar(h: Hub, at: int, gap: int)
    requires 0 <= h.attempts <= 5
    ensures Prompt(h, at, gap, [])
  {
  }

  lemma PromptCons(h: Hub, at: int, next: Hub, now: int, gap: int, rest: seq<int>)
    requires 0 <= h.attempts < 5 && next.attempts == h.attempts + 1 && Prompt(next, now, gap, rest)
    requires NextDue(h, at) <= now <= NextDue(h, at) + gap
    requires next.attempts < 5 ==> NextDue(next, now) == now + WAITS[next.attempts]
    ensures Prompt(h, at, gap, [now] + rest)
  {
    hide NextDue;
    var ts := [now] + rest;
    forall k | 1 <= k < |ts| ensures WAITS[h.attempts + k] <= ts[k] - ts[k - 1] <= WAITS[h.attempts + k] + gap {
      if k > 1 {
        assert ts[k] == rest[k - 1] && ts[k - 1] == rest[k - 1 - 1];
      }
    }
  }

  /** A listed, enabled hub that stays silent is restarted, each time within one tick
      of the moment its wait is over, until five attempts are made, and then
      disabled: all of it by the deadline, from no attempts at most 310 seconds
      and six ticks on. */
  lemma {:induction false} SilentHubIsGivenUp(h: Hub, es: seq<Event>, at: int, gap: int)
    requires Silent(h, at) && gap > 0 && Ticking(es, at, gap)
    ensures Prompt(h, at, gap, RestartTimes(h, es))
    ensures es != [] && LastTick(es, at) >= Deadline(h, at, gap) ==>
              && |RestartTimes(h, es)| == 5 - h.attempts
              && AfterAll(h, es).attempts == 5 && !AfterAll(h, es).enabled
    decreases |es|
  {
    PromptSoFar(h, at, gap);
    if es != [] {
      var now, next := es[0].now, After(h, es[0]);
      TickOfSilent(h, at, now, gap);
      hide After, Restarts, NextDue, Deadline, Prompt;
      if h.attempts == 5 {
        TicksDoNotReset(es, at, gap);
        GivenUpStays(next, es[1..]);
        DisabledStays(next, es[1..], now, gap);
      } else {
        SilentHubIsGivenUp(next, es[1..], now, gap);
        DeadlineIsLater(next, now, gap);
        assert LastTick(es, at) == LastTick(es[1..], now);
        hide Silent, Ticking, LastTick;
        TickThenRest(h, es, at, gap);
      }
    }
  }

  lemma TickThenRest(h: Hub, es: seq<Event>, at: int, gap: int)
    requires es != [] && es[0].Tick? && Silent(h, at) && h.attempts < 5 && at <= es[0].now <= at + gap
    requires var next := After(h, es[0]);
             0 <= next.attempts <= 5 && Prompt(next, es[0].now, gap, RestartTimes(next, es[1..]))
    ensures Prompt(h, at, gap, RestartTimes(h, es))
    ensures |RestartTimes(h, es)| + h.attempts == |RestartTimes(After(h, es[0]), es[1..])| + After(h, es[0]).attempts
  {
    var now, next := es[0].now, After(h, es[0]);
    var rest := RestartTimes(next, es[1..]);
    TickOfSilent(h, at, now, gap);
    NextDueIsLater(h, at);
    hide After, NextDue, Deadline, Prompt, Silent, DecideFor;
    if Restarts(h, es[0]) {
      PromptCons(h, at, next, now, gap, rest);
    } else {
      assert RestartTimes(h, es) == rest;
      PromptSame(h, at, next, now, gap, rest);
    }
  }

  /** Also of a hub that was given up, once an operator has restarted it: the
      deadline counts from then on. */
  lemma RevivedIsSupervised(h: Hub, es: seq<Event>, at: int, gap: int)
    requires h.listed && at - h.lastSeen >= 180 && gap > 0 && Ticking(es, at, gap)
    ensures var r := After(h, ForceRestart(at));
            && Silent(r, at)
            && Prompt(r, at, gap, RestartTimes(r, es))
            && (es != [] && LastTick(es, at) >= at + 310 + 6 * gap ==> |RestartTimes(r, es)| == 5 && !AfterAll(r, es).enabled)
  {
    var r := After(h, ForceRestart(at));
    SilentHubIsGivenUp(r, es, at, gap);
    DeadlineBound(r, at, gap);
  }

  lemma NextDueIsLater(h: Hub, at: int)
    requires 0 <= h.attempts <= 5
    ensures NextDue(h, at) >= at
  {
  }

  lemma {:induction false} WaitsArePositive(a: nat, gap: int)
    requires a <= 5 && gap >= 0
    ensures WaitsAfter(a, gap) >= 0
    decreases 5 - a
  {
    if a < 4 {
      WaitsArePositive(a + 1, gap);
    }
  }

  lemma DeadlineIsLater(h: Hub, at: int, gap: int)
    requires 0 <= h.attempts <= 5 && gap >= 0
    ensures Deadline(h, at, gap) >= at + gap
  {
    WaitsArePositive(h.attempts, gap);
  }

  lemma {:induction false} TicksDoNotReset(es: seq<Event>, at: int, gap: int)
    requires Ticking(es, at, gap)
    ensures forall i :: 0 <= i < |es| ==> es[i].Tick?
    decreases |es|
  {
    if es != [] {
      TicksDoNotReset(es[1..], es[0].now, gap);
      assert es == [es[0]] + es[1..];
    }
  }

  lemma {:induction false} DisabledStays(h: Hub, es: seq<Event>, at: int, gap: int)
    requires !h.enabled && Ticking(es, at, gap)
    ensures AfterAll(h, es) == h
    decreases |es|
  {
    if es != [] {
      DisabledStays(h, es[1..], es[0].now, gap);
    }
  }

  /** Every tick comes less than three minutes after the hub was last seen. */
  predicate Reporting(es: seq<Event>, lastSeen: int)
    decreases |es|
  {
    es == [] ||
    match es[0]
    case Tick(now) => now - lastSeen < 180 && Reporting(es[1..], lastSeen)
    case Heartbeat(now) => Reporting(es[1..], now)
    case _ => Reporting(es[1..], lastSeen)
  }

  /** A hub that keeps reporting is never restarted nor disabled. */
  lemma {:induction false} ReportingIsLeftAlone(h: Hub, es: seq<Event>)
    requires Reporting(es, h.lastSeen)
    ensures RestartTimes(h, es) == [] && (h.enabled ==> AfterAll(h, es).enabled)
    decreases |es|
  {
    if es != [] {
      ReportingIsLeftAlone(After(h, es[0]), es[1..]);
    }
  }

  /** Nor is one that is suspended or deleted, until it is listed again. */
  lemma {:induction false} UnlistedIsLeftAlone(h: Hub, es: seq<Event>)
    requires forall i :: 0 <= i < |es| ==> es[i] != Relist(true)
    ensures RestartTimes(After(h, Relist(false)), es) == []
    decreases |es|
  {
    if es != [] {
      var off := After(h, Relist(false));
      assert After(off, Relist(false)) == off;
      assert !After(off, es[0]).listed;
      assert After(After(off, es[0]), Relist(false)) == After(off, es[0]);
      UnlistedIsLeftAlone(After(off, es[0]), es[1..]);
    }
  }

  /** After it gave up, supervision does nothing for the hub, not even once its
      heartbeats return, until an operator restarts it by hand. */
  lemma {:induction false} GivenUpStays(h: Hub, es: seq<Event>)
    requires !h.enabled && forall i :: 0 <= i < |es| ==> !es[i].ForceRestart?
    ensures RestartTimes(h, es) == [] && !AfterAll(h, es).enabled
    decreases |es|
  {
    if es != [] {
      GivenUpStays(After(h, es[0]), es[1..]);
    }
  }
}
