/** Who is never refused: an address whose requests, in every stretch of time, are
    no more than the burst and what refills meanwhile. */
module Conformance {
  import opened Bytes
  import opened RateLimiter

  /** How many of the requests are this key's. */
  function Asked(rs: seq<Request>, key: Ip): nat {
    if rs == [] then 0 else (if rs[0].key == key then 1 else 0) + Asked(rs[1..], key)
  }

  /** Up to each request the key has asked for no more than `tokens` and what comes
      in since `from`. */
  predicate Within(cfg: Config, rs: seq<Request>, key: Ip, tokens: real, from: real) {
    forall j :: 0 <= j < |rs| ==> Asked(rs[..j + 1], key) as real <= tokens + Income(cfg, from, rs[j].at)
  }

  /** From request `i` to request `j` the key asks for no more than the burst and what
      comes in meanwhile. */
  predicate InStretch(cfg: Config, rs: seq<Request>, key: Ip, i: nat, j: nat)
    requires i <= j < |rs|
  {
    Asked(rs[i..j + 1], key) as real <= cfg.burst as real + (rs[j].at - rs[i].at) * cfg.refill
  }

  predicate Conforms(cfg: Config, rs: seq<Request>, key: Ip) {
    forall i, j :: 0 <= i <= j < |rs| ==> InStretch(cfg, rs, key, i, j)
  }

  predicate AllAllowed(ds: seq<bool>, rs: seq<Request>, key: Ip) {
    |ds| == |rs| && forall i :: 0 <= i < |rs| && rs[i].key == key ==> ds[i]
  }

  // ---- The tokens of a key ----------------------------------------------------------

  /** Waiting adds what comes in, up to the burst. */
  lemma AvailableAt(cfg: Config, m: Buckets, key: Ip, now: real, later: real)
    requires cfg.refill >= 0.0 && Sane(cfg, m, now) && now <= later
    ensures 0.0 <= Available(cfg, m, key, now) <= cfg.burst as real
    ensures Available(cfg, m, key, later) ==
            Min(Available(cfg, m, key, now) + Income(cfg, now, later), cfg.burst as real)
  {
    AvailableLater(cfg, m, key, now, now);
    MulMono(0.0, later - now, cfg.refill);
    if key in m {
      Distribute(m[key].last, now, later, cfg.refill);
    } else {
      NewIsFull(cfg, m, key, now);
      NewIsFull(cfg, m, key, later);
    }
  }

  // ---- Windows ------------------------------------------------------------------------

  lemma AskedCons(rs: seq<Request>, key: Ip, j: nat)
    requires j < |rs|
    ensures Asked(rs[..j + 1], key) == (if rs[0].key == key then 1 else 0) + Asked(rs[1..][..j], key)
  {
    assert rs[..j + 1][1..] == rs[1..][..j];
  }

  lemma IncomeSplits(cfg: Config, a: real, b: real, c: real)
    ensures Income(cfg, a, c) == Income(cfg, a, b) + Income(cfg, b, c) && Income(cfg, a, a) == 0.0
  {
    Distribute(a, b, c, cfg.refill);
  }

  /** Two allowances at once are the one cut off at the burst. */
  lemma WithinBoth(cfg: Config, rs: seq<Request>, key: Ip, tokens: real, from: real, at: real)
    ensures Within(cfg, rs, key, tokens, from) && Within(cfg, rs, key, cfg.burst as real, at) <==>
            Within(cfg, rs, key, Min(tokens + Income(cfg, from, at), cfg.burst as real), at)
  {
    forall j | 0 <= j < |rs| ensures Income(cfg, from, rs[j].at) == Income(cfg, from, at) + Income(cfg, at, rs[j].at) {
      IncomeSplits(cfg, from, at, rs[j].at);
    }
    hide Asked, Income;
  }

  /** The first request takes its token, the others go on with the rest. */
  lemma WithinCons(cfg: Config, rs: seq<Request>, key: Ip, tokens: real)
    requires rs != [] && tokens >= 0.0
    ensures var rest := if rs[0].key == key then tokens - 1.0 else tokens;
            Within(cfg, rs, key, tokens, rs[0].at) <==> rest >= 0.0 && Within(cfg, rs[1..], key, rest, rs[0].at)
  {
    var at := rs[0].at;
    var rest := if rs[0].key == key then tokens - 1.0 else tokens;
    forall j | 0 <= j < |rs|
      ensures Asked(rs[..j + 1], key) == (if rs[0].key == key then 1 else 0) + Asked(rs[1..][..j], key)
    {
      AskedCons(rs, key, j);
    }
    IncomeSplits(cfg, at, at, at);
    assert Asked(rs[1..][..0], key) == 0;
    hide Asked, Income;
    if Within(cfg, rs, key, tokens, at) {
      assert Asked(rs[..0 + 1], key) as real <= tokens + Income(cfg, at, rs[0].at);
      forall j | 0 <= j < |rs| - 1 ensures Asked(rs[1..][..j + 1], key) as real <= rest + Income(cfg, at, rs[1..][j].at) {
        assert rs[1..][j] == rs[j + 1];
        assert Asked(rs[..(j + 1) + 1], key) as real <= tokens + Income(cfg, at, rs[j + 1].at);
      }
    }
    if rest >= 0.0 && Within(cfg, rs[1..], key, rest, at) {
      forall j | 0 <= j < |rs| ensures Asked(rs[..j + 1], key) as real <= tokens + Income(cfg, at, rs[j].at) {
        if j > 0 {
          assert rs[1..][j - 1] == rs[j];
          assert Asked(rs[1..][..(j - 1) + 1], key) as real <= rest + Income(cfg, at, rs[1..][j - 1].at);
        }
      }
    }
  }

  lemma StretchOfTail(cfg: Config, rs: seq<Request>, key: Ip, i: nat, j: nat)
    requires i <= j < |rs| - 1
    ensures InStretch(cfg, rs[1..], key, i, j) <==> InStretch(cfg, rs, key, i + 1, j + 1)
  {
    assert rs[1..][i..j + 1] == rs[i + 1..j + 2];
  }

  lemma StretchFromHead(cfg: Config, rs: seq<Request>, key: Ip, j: nat)
    requires j < |rs|
    ensures InStretch(cfg, rs, key, 0, j) <==>
            Asked(rs[..j + 1], key) as real <= cfg.burst as real + Income(cfg, rs[0].at, rs[j].at)
  {
    assert rs[0..j + 1] == rs[..j + 1];
  }

  lemma ConformsCons(cfg: Config, rs: seq<Request>, key: Ip)
    requires rs != []
    ensures Conforms(cfg, rs, key) <==>
            Within(cfg, rs, key, cfg.burst as real, rs[0].at) && Conforms(cfg, rs[1..], key)
  {
    forall j | 0 <= j < |rs|
      ensures InStretch(cfg, rs, key, 0, j) <==>
              Asked(rs[..j + 1], key) as real <= cfg.burst as real + Income(cfg, rs[0].at, rs[j].at)
    {
      StretchFromHead(cfg, rs, key, j);
    }
    hide InStretch, Asked, Income;
    if Within(cfg, rs, key, cfg.burst as real, rs[0].at) && Conforms(cfg, rs[1..], key) {
      forall i, j | 0 <= i <= j < |rs| ensures InStretch(cfg, rs, key, i, j) {
        if i > 0 {
          StretchOfTail(cfg, rs, key, i - 1, j - 1);
        }
      }
    }
    if Conforms(cfg, rs, key) {
      forall i, j | 0 <= i <= j < |rs[1..]| ensures InStretch(cfg, rs[1..], key, i, j) {
        StretchOfTail(cfg, rs, key, i, j);
      }
    }
  }

  // ---- Exactly the conforming keys are never refused -------------------------------------

  /** One check: what the key must have had before it, and what it is left with. */
  lemma OneCheck(cfg: Config, m: Buckets, rs: seq<Request>, key: Ip, now: real)
    requires cfg.refill >= 0.0 && Sane(cfg, m, now) && rs != [] && rs[0].at >= now
    ensures var r := rs[0];
            Within(cfg, rs, key, Available(cfg, m, key, now), now) && Conforms(cfg, rs, key) <==>
              && (r.key == key ==> Allowed(cfg, m, key, r.at))
              && Within(cfg, rs[1..], key, Available(cfg, Checked(cfg, m, r.key, r.at), key, r.at), r.at)
              && Conforms(cfg, rs[1..], key)
  {
    var r := rs[0];
    AvailableAt(cfg, m, key, now, r.at);
    SaneLater(cfg, m, now, r.at);
    AvailableAfter(cfg, m, r, key);
    var before, after := Available(cfg, m, key, r.at), Available(cfg, Checked(cfg, m, r.key, r.at), key, r.at);
    assert Allowed(cfg, m, key, r.at) <==> before >= 1.0;
    ConformsCons(cfg, rs, key);
    WithinBoth(cfg, rs, key, Available(cfg, m, key, now), now, r.at);
    AvailableAt(cfg, m, key, r.at, r.at);
    hide Available, Checked, Sane, Conforms, Within, Allowed, Income, Min;
    WithinCons(cfg, rs, key, before);
  }

  lemma {:induction false} PerfectlyAllowedIff(cfg: Config, m: Buckets, rs: seq<Request>, key: Ip, now: real)
    requires cfg.refill >= 0.0 && Sane(cfg, m, now) && InOrder(rs, now)
    ensures AllAllowed(PerfectDecisions(cfg, m, rs), rs, key) <==>
            Within(cfg, rs, key, Available(cfg, m, key, now), now) && Conforms(cfg, rs, key)
    decreases |rs|
  {
    DecisionsLength(cfg, m, rs);
    if rs != [] {
      var r := rs[0];
      hide Available, Checked, Conforms, Within, Allowed, AllAllowed, PerfectDecisions, Sane;
      OneCheck(cfg, m, rs, key, now);
      SaneLater(cfg, m, now, r.at);
      StepSane(cfg, m, r.key, r.at);
      PerfectlyAllowedIff(cfg, Checked(cfg, m, r.key, r.at), rs[1..], key, r.at);
      AllAllowedCons(cfg, m, rs, key);
    }
  }

  lemma AllAllowedCons(cfg: Config, m: Buckets, rs: seq<Request>, key: Ip)
    requires rs != []
    ensures AllAllowed(PerfectDecisions(cfg, m, rs), rs, key) <==>
            && (rs[0].key == key ==> Allowed(cfg, m, key, rs[0].at))
            && AllAllowed(PerfectDecisions(cfg, Checked(cfg, m, rs[0].key, rs[0].at), rs[1..]), rs[1..], key)
  {
    hide Allowed, Checked;
    DecisionsLength(cfg, m, rs);
    var ds := PerfectDecisions(cfg, m, rs);
    var rest := PerfectDecisions(cfg, Checked(cfg, m, rs[0].key, rs[0].at), rs[1..]);
    assert ds == [Allowed(cfg, m, rs[0].key, rs[0].at)] + rest;
    forall i | 1 <= i < |rs| ensures ds[i] == rest[i - 1] && rs[i] == rs[1..][i - 1] {
    }
    if AllAllowed(ds, rs, key) {
      forall i | 0 <= i < |rs| - 1 && rs[1..][i].key == key ensures rest[i] {
        assert rs[i + 1].key == key && ds[i + 1];
      }
    }
  }

  /** Every request of an address not seen before is allowed exactly when, counted
      from whichever request of the run, it has asked for no more than the burst
      and what refilled since: the limiter refuses neither less nor more. */
  lemma AllAllowedIff(cfg: Config, m: Buckets, rs: seq<Request>, key: Ip, now: real)
    requires cfg.refill >= 0.0 && RefillsWhenIdle(cfg) && Sane(cfg, m, now) && InOrder(rs, now) && key !in m
    ensures AllAllowed(Decisions(cfg, m, rs), rs, key) <==> Conforms(cfg, rs, key)
  {
    assert Agrees(cfg, m, m, now);
    CleanupIsInvisible(cfg, m, m, rs, now);
    PerfectlyAllowedIff(cfg, m, rs, key, now);
    NewIsFull(cfg, m, key, now);
    hide Available, Decisions, PerfectDecisions, Sane, Within, Agrees, RefillsWhenIdle, AllAllowed;
    if rs != [] && Conforms(cfg, rs, key) {
      ConformsCons(cfg, rs, key);
      WithinSooner(cfg, rs, key, cfg.burst as real, rs[0].at, now);
    } else if rs == [] {
      WithinNothing(cfg, key, cfg.burst as real, now);
    }
  }

  lemma WithinSooner(cfg: Config, rs: seq<Request>, key: Ip, tokens: real, from: real, sooner: real)
    requires cfg.refill >= 0.0 && sooner <= from && Within(cfg, rs, key, tokens, from)
    ensures Within(cfg, rs, key, tokens, sooner)
  {
    forall j | 0 <= j < |rs| ensures Income(cfg, from, rs[j].at) <= Income(cfg, sooner, rs[j].at) {
      IncomeSplits(cfg, sooner, from, rs[j].at);
      IncomeAdds(cfg, sooner, from, from);
    }
    hide Asked, Income;
  }

  lemma WithinNothing(cfg: Config, key: Ip, tokens: real, from: real)
    ensures Within(cfg, [], key, tokens, from)
  {
  }
}
