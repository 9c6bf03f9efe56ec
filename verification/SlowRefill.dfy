/** What the clean-up of the rate limiter costs when buckets refill too slowly:
    a drained address is forgotten and starts again with a full bucket. */
module SlowRefill {
  import opened Bytes
  import opened RateLimiter

  const DRAINED: Ip := V4([192, 0, 2, 1])

  /** The `i`-th of ten thousand other addresses, each its own /64. */
  function Other(i: nat): (ip: Ip)
    requires i < CLEANUP_ABOVE
    ensures ip.Valid()
  {
    V6([i / 256, i % 256, 0, 0, 0, 0, 0, 0] + LOW64)
  }

  lemma OthersDiffer(i: nat, j: nat)
    requires i < j < CLEANUP_ABOVE
    ensures Other(i) != Other(j) && Other(i) != DRAINED
  {
    assert Other(i).octets[0] == i / 256 && Other(i).octets[1] == i % 256;
    assert Other(j).octets[0] == j / 256 && Other(j).octets[1] == j % 256;
  }

  /** A key the limiter can look up: the canonical form of an address. */
  predicate IsKey(ip: Ip) {
    ip.Valid() && Canonical(ip) == ip
  }

  predicate HasKeys(rs: seq<Request>) {
    forall i :: 0 <= i < |rs| ==> IsKey(rs[i].key)
  }

  lemma OtherIsAKey(i: nat)
    requires i < CLEANUP_ABOVE
    ensures IsKey(Other(i)) && IsKey(DRAINED)
  {
    var o := Other(i).octets;
    assert o[..12][10] == 0 && MAPPED[10] == 0xff;
    assert o[..8] + LOW64 == o;
  }

  function Others(n: nat): set<Ip>
    requires n <= CLEANUP_ABOVE
  {
    set i: nat | i < n :: Other(i)
  }

  lemma {:induction false} OthersCount(n: nat)
    requires n <= CLEANUP_ABOVE
    ensures |Others(n)| == n
  {
    if n == 0 {
      assert Others(0) == {};
    } else {
      OthersCount(n - 1);
      forall i: nat | i < n - 1 ensures Other(i) != Other(n - 1) {
        OthersDiffer(i, n - 1);
      }
      assert Others(n) == Others(n - 1) + {Other(n - 1)};
    }
  }

  // ---- The run ----------------------------------------------------------------------

  /** `n` requests of one address, and what comes after them. */
  function Ask(key: Ip, at: real, n: nat, rest: seq<Request>): seq<Request> {
    if n == 0 then rest else [Request(key, at)] + Ask(key, at, n - 1, rest)
  }

  /** One request of each other address from the `i`-th on. */
  function AskOthers(i: nat, at: real, rest: seq<Request>): seq<Request>
    requires i <= CLEANUP_ABOVE
    decreases CLEANUP_ABOVE - i
  {
    if i == CLEANUP_ABOVE then rest else [Request(Other(i), at)] + AskOthers(i + 1, at, rest)
  }

  /** Drain one bucket; ten minutes later let ten thousand others in; then ask
      for the drained one again. */
  function SlowRun(cfg: Config): seq<Request> {
    Ask(DRAINED, 0.0, cfg.burst, AskOthers(0, IDLE_SECS, Ask(DRAINED, IDLE_SECS, cfg.burst, [])))
  }

  lemma ConsInOrder(r: Request, rest: seq<Request>)
    requires InOrder(rest, r.at)
    ensures InOrder([r] + rest, r.at)
  {
    var rs := [r] + rest;
    forall j | 0 < j < |rs| ensures r.at <= rs[j].at {
      assert rs[j] == rest[j - 1] && rest[0].at <= rest[j - 1].at;
    }
  }

  lemma {:induction false} AskInOrder(key: Ip, at: real, n: nat, rest: seq<Request>)
    requires InOrder(rest, at)
    ensures InOrder(Ask(key, at, n, rest), at)
  {
    if n > 0 {
      AskInOrder(key, at, n - 1, rest);
      ConsInOrder(Request(key, at), Ask(key, at, n - 1, rest));
    }
  }

  lemma {:induction false} AskOthersInOrder(i: nat, at: real, rest: seq<Request>)
    requires i <= CLEANUP_ABOVE && InOrder(rest, at)
    ensures InOrder(AskOthers(i, at, rest), at)
    decreases CLEANUP_ABOVE - i
  {
    if i < CLEANUP_ABOVE {
      AskOthersInOrder(i + 1, at, rest);
      ConsInOrder(Request(Other(i), at), AskOthers(i + 1, at, rest));
    }
  }

  lemma SlowRunInOrder(cfg: Config)
    ensures InOrder(SlowRun(cfg), 0.0)
  {
    var late := Ask(DRAINED, IDLE_SECS, cfg.burst, []);
    AskInOrder(DRAINED, IDLE_SECS, cfg.burst, []);
    AskOthersInOrder(0, IDLE_SECS, late);
    AskInOrder(DRAINED, 0.0, cfg.burst, AskOthers(0, IDLE_SECS, late));
  }

  lemma {:induction false} AskHasKeys(key: Ip, at: real, n: nat, rest: seq<Request>)
    requires IsKey(key) && HasKeys(rest)
    ensures HasKeys(Ask(key, at, n, rest))
  {
    if n > 0 {
      AskHasKeys(key, at, n - 1, rest);
    }
  }

  lemma {:induction false} AskOthersHasKeys(i: nat, at: real, rest: seq<Request>)
    requires i <= CLEANUP_ABOVE && HasKeys(rest)
    ensures HasKeys(AskOthers(i, at, rest))
    decreases CLEANUP_ABOVE - i
  {
    if i < CLEANUP_ABOVE {
      OtherIsAKey(i);
      AskOthersHasKeys(i + 1, at, rest);
    }
  }

  lemma SlowRunHasKeys(cfg: Config)
    ensures HasKeys(SlowRun(cfg))
  {
    OtherIsAKey(0);
    hide IsKey;
    AskHasKeys(DRAINED, IDLE_SECS, cfg.burst, []);
    AskOthersHasKeys(0, IDLE_SECS, Ask(DRAINED, IDLE_SECS, cfg.burst, []));
    AskHasKeys(DRAINED, 0.0, cfg.burst, AskOthers(0, IDLE_SECS, Ask(DRAINED, IDLE_SECS, cfg.burst, [])));
  }

  // ---- Why the two limiters part ------------------------------------------------------

  /** The sweeping limiter in state `m` and the one that forgets nothing in state
      `full` answer some request of the run differently. */
  predicate Part(cfg: Config, m: Buckets, full: Buckets, rs: seq<Request>) {
    Decisions(cfg, m, rs) != PerfectDecisions(cfg, full, rs)
  }

  lemma PartLater(cfg: Config, m: Buckets, full: Buckets, r: Request, rest: seq<Request>)
    requires Part(cfg, Step(cfg, m, r.key, r.at), Checked(cfg, full, r.key, r.at), rest)
    ensures Part(cfg, m, full, [r] + rest)
  {
    var rs := [r] + rest;
    assert rs[1..] == rest && rs[0] == r;
    var ds, ps := Decisions(cfg, m, rs), PerfectDecisions(cfg, full, rs);
    assert ds[1..] == Decisions(cfg, Step(cfg, m, r.key, r.at), rest);
    assert ps[1..] == PerfectDecisions(cfg, Checked(cfg, full, r.key, r.at), rest);
  }

  lemma PartNow(cfg: Config, m: Buckets, full: Buckets, r: Request, rest: seq<Request>)
    requires Allowed(cfg, m, r.key, r.at) != Allowed(cfg, full, r.key, r.at)
    ensures Part(cfg, m, full, [r] + rest)
  {
    var rs := [r] + rest;
    assert Decisions(cfg, m, rs)[0] == Allowed(cfg, m, r.key, r.at);
    assert PerfectDecisions(cfg, full, rs)[0] == Allowed(cfg, full, r.key, r.at);
  }

  /** A sweep never takes the bucket just used, and its tokens stay. */
  lemma StepKeepsOwn(cfg: Config, m: Buckets, key: Ip, now: real)
    ensures key in Step(cfg, m, key, now) && Step(cfg, m, key, now)[key] == Checked(cfg, m, key, now)[key]
    ensures Step(cfg, m, key, now).Keys <= m.Keys + {key}
    ensures forall k :: k in Step(cfg, m, key, now) && k != key ==> Step(cfg, m, key, now)[k] == m[k]
  {
    hide Available;
  }

  lemma AtOnce(cfg: Config, m: Buckets, key: Ip, now: real)
    requires key in m && m[key].last == now && m[key].tokens <= cfg.burst as real
    ensures Available(cfg, m, key, now) == m[key].tokens
  {
    assert Earned(cfg, 0.0) == 0.0;
  }

  /** With `n` tokens on the one side and fewer on the other, `n` requests at
      once tell them apart. */
  lemma {:induction false} FewerTokensShow(cfg: Config, m: Buckets, full: Buckets, key: Ip, now: real, n: nat)
    requires Available(cfg, m, key, now) == n as real <= cfg.burst as real
    requires 0.0 <= Available(cfg, full, key, now) < n as real
    ensures Part(cfg, m, full, Ask(key, now, n, []))
    decreases n
  {
    hide Part, Refilled;
    var r := Request(key, now);
    var rest := Ask(key, now, n - 1, []);
    assert Ask(key, now, n, []) == [r] + rest;
    if !Allowed(cfg, full, key, now) {
      PartNow(cfg, m, full, r, rest);
    } else {
      StepKeepsOwn(cfg, m, key, now);
      AtOnce(cfg, Step(cfg, m, key, now), key, now);
      AtOnce(cfg, Checked(cfg, full, key, now), key, now);
      assert n >= 1;
      hide Available, Step;
      FewerTokensShow(cfg, Step(cfg, m, key, now), Checked(cfg, full, key, now), key, now, n - 1);
      PartLater(cfg, m, full, r, rest);
    }
  }

  /** The first `i` others have come; the drained bucket is untouched since, and
      forgotten once all have come. */
  predicate Flooded(m: Buckets, full: Buckets, i: nat)
    requires i <= CLEANUP_ABOVE
  {
    && (forall j: nat :: j < CLEANUP_ABOVE ==> (Other(j) in m <==> j < i))
    && (forall j: nat :: j < i ==> m[Other(j)].last == IDLE_SECS)
    && (DRAINED in m ==> m[DRAINED].last == 0.0 && i < CLEANUP_ABOVE)
    && DRAINED in full && full[DRAINED] == Bucket(0.0, 0.0)
  }

  lemma OneMoreOther(cfg: Config, m: Buckets, full: Buckets, i: nat)
    requires i < CLEANUP_ABOVE && Flooded(m, full, i) && cfg.burst >= 1
    ensures Flooded(Step(cfg, m, Other(i), IDLE_SECS), Checked(cfg, full, Other(i), IDLE_SECS), i + 1)
  {
    var k := Other(i);
    var m' := Checked(cfg, m, k, IDLE_SECS);
    forall j: nat | j < CLEANUP_ABOVE && j != i ensures Other(j) != k {
      OthersDiffer(if i < j then i else j, if i < j then j else i);
    }
    assert k != DRAINED;
    NewIsFull(cfg, m, k, IDLE_SECS);
    hide Available, Other;
    assert Since(IDLE_SECS, 0.0) == IDLE_SECS;
    if DRAINED in m' && i + 1 == CLEANUP_ABOVE {
      OthersCount(i + 1);
      assert Others(i + 1) + {DRAINED} <= m'.Keys;
      assert |Others(i + 1) + {DRAINED}| == CLEANUP_ABOVE + 1;
      SubsetCount(Others(i + 1) + {DRAINED}, m'.Keys);
      assert |m'.Keys| == |m'|;
    }
  }

  lemma {:induction false} SubsetCount(a: set<Ip>, b: set<Ip>)
    requires a <= b
    ensures |a| <= |b|
    decreases |a|
  {
    if a != {} {
      var x :| x in a;
      SubsetCount(a - {x}, b - {x});
    }
  }

  lemma {:induction false} FloodParts(cfg: Config, m: Buckets, full: Buckets, i: nat)
    requires i <= CLEANUP_ABOVE && Flooded(m, full, i)
    requires cfg.refill >= 0.0 && !RefillsWhenIdle(cfg)
    ensures Part(cfg, m, full, AskOthers(i, IDLE_SECS, Ask(DRAINED, IDLE_SECS, cfg.burst, [])))
    decreases CLEANUP_ABOVE - i
  {
    MulMono(0.0, IDLE_SECS, cfg.refill);
    if i == CLEANUP_ABOVE {
      NewIsFull(cfg, m, DRAINED, IDLE_SECS);
      assert Available(cfg, full, DRAINED, IDLE_SECS) == IDLE_SECS * cfg.refill;
      hide Available, Flooded, Ask;
      FewerTokensShow(cfg, m, full, DRAINED, IDLE_SECS, cfg.burst);
    } else {
      OneMoreOther(cfg, m, full, i);
      hide Flooded, Ask, Part, Step, Checked, Other;
      FloodParts(cfg, Step(cfg, m, Other(i), IDLE_SECS), Checked(cfg, full, Other(i), IDLE_SECS), i + 1);
      PartLater(cfg, m, full, Request(Other(i), IDLE_SECS),
                AskOthers(i + 1, IDLE_SECS, Ask(DRAINED, IDLE_SECS, cfg.burst, [])));
    }
  }

  /** Only the drained address so far, with `n` tokens left. */
  predicate Draining(cfg: Config, m: Buckets, n: nat) {
    && m.Keys <= {DRAINED}
    && n <= cfg.burst
    && (if n == cfg.burst then m == map[] else DRAINED in m && m[DRAINED] == Bucket(n as real, 0.0))
  }

  lemma OneMoreDrained(cfg: Config, m: Buckets, n: nat)
    requires Draining(cfg, m, n) && n > 0
    ensures Draining(cfg, Checked(cfg, m, DRAINED, 0.0), n - 1)
    ensures Step(cfg, m, DRAINED, 0.0) == Checked(cfg, m, DRAINED, 0.0)
  {
    if n == cfg.burst {
      NewIsFull(cfg, m, DRAINED, 0.0);
    } else {
      AtOnce(cfg, m, DRAINED, 0.0);
    }
    hide Available;
    SubsetCount(Checked(cfg, m, DRAINED, 0.0).Keys, {DRAINED});
    assert |Checked(cfg, m, DRAINED, 0.0).Keys| == |Checked(cfg, m, DRAINED, 0.0)|;
  }

  lemma {:induction false} DrainParts(cfg: Config, m: Buckets, n: nat)
    requires Draining(cfg, m, n)
    requires cfg.refill >= 0.0 && !RefillsWhenIdle(cfg)
    ensures Part(cfg, m, m, Ask(DRAINED, 0.0, n, AskOthers(0, IDLE_SECS, Ask(DRAINED, IDLE_SECS, cfg.burst, []))))
    decreases n
  {
    var late := AskOthers(0, IDLE_SECS, Ask(DRAINED, IDLE_SECS, cfg.burst, []));
    if n == 0 {
      MulMono(0.0, IDLE_SECS, cfg.refill);
      assert Flooded(m, m, 0);
      FloodParts(cfg, m, m, 0);
    } else {
      OneMoreDrained(cfg, m, n);
      hide Draining, Part, Step, Checked, AskOthers;
      DrainParts(cfg, Checked(cfg, m, DRAINED, 0.0), n - 1);
      PartLater(cfg, m, m, Request(DRAINED, 0.0), Ask(DRAINED, 0.0, n - 1, late));
    }
  }

  /** The clean-up changes no decision of any run exactly when a bucket refills
      wholly within the idle time after which it may be forgotten. */
  lemma CleanupIsInvisibleIff(cfg: Config)
    requires cfg.refill >= 0.0
    ensures RefillsWhenIdle(cfg) <==>
            forall rs :: InOrder(rs, 0.0) && HasKeys(rs) ==>
              Decisions(cfg, map[], rs) == PerfectDecisions(cfg, map[], rs)
  {
    if RefillsWhenIdle(cfg) {
      forall rs | InOrder(rs, 0.0) && HasKeys(rs)
        ensures Decisions(cfg, map[], rs) == PerfectDecisions(cfg, map[], rs)
      {
        CleanupIsInvisible(cfg, map[], map[], rs, 0.0);
      }
    } else {
      SlowRunInOrder(cfg);
      SlowRunHasKeys(cfg);
      DrainParts(cfg, map[], cfg.burst);
      assert Part(cfg, map[], map[], SlowRun(cfg));
    }
  }
}
