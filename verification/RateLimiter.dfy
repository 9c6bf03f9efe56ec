/** The per-address token bucket, its clean-up of idle buckets, and the address
    a bucket is keyed by. Tokens and times are exact reals. */
module RateLimiter {
  import opened Bytes

  // ---- The key -------------------------------------------------------------------

  datatype Ip = V4(octets: seq<byte>) | V6(octets: seq<byte>) {
    predicate Valid() {
      match this
      case V4(o) => |o| == 4
      case V6(o) => |o| == 16
    }
  }

  const LOW64: seq<byte> := [0, 0, 0, 0, 0, 0, 0, 0]
  const MAPPED: seq<byte> := [0, 0, 0, 0, 0, 0, 0, 0, 0, 0, 0xff, 0xff]

  predicate IsMapped(o: seq<byte>) {
    |o| == 16 && o[..12] == MAPPED
  }

  function Canonical(ip: Ip): (r: Ip)
    requires ip.Valid()
    ensures r.Valid()
  {
    match ip
    case V4(_) => ip
    case V6(o) => if IsMapped(o) then V4(o[12..]) else V6(o[..8] + LOW64)
  }

  /** The address behind the IPv4-mapped form. */
  function Unmapped(ip: Ip): Ip
    requires ip.Valid()
  {
    if ip.V6? && IsMapped(ip.octets) then V4(ip.octets[12..]) else ip
  }

  /** Two addresses share a bucket exactly when they are the same IPv4 address,
      mapped or not, or IPv6 addresses of one /64; a key is its own key. */
  lemma SharesBucketIff(a: Ip, b: Ip)
    requires a.Valid() && b.Valid()
    ensures Canonical(a) == Canonical(b) <==>
            var x, y := Unmapped(a), Unmapped(b);
            x == y || (x.V6? && y.V6? && x.octets[..8] == y.octets[..8])
    ensures Canonical(Canonical(a)) == Canonical(a)
  {
    var x, y := Unmapped(a), Unmapped(b);
    if x.V6? && y.V6? {
      assert (x.octets[..8] + LOW64)[..8] == x.octets[..8];
      assert (y.octets[..8] + LOW64)[..8] == y.octets[..8];
    }
    if x.V6? {
      var o := x.octets[..8] + LOW64;
      assert o[10] == 0 && MAPPED[10] == 0xff;
      assert o[..12][10] != MAPPED[10];
      assert o[..8] + LOW64 == o;
    }
  }

  // ---- One check -----------------------------------------------------------------

  const CLEANUP_ABOVE: nat := 10_000
  const IDLE_SECS: real := 600.0

  datatype Config = Config(burst: nat, refill: real)

  /** The three built-in configurations. */
  const AUTH := Config(10, 1.0)
  const STICKER_FEDERATION := Config(60, 5.0)
  const WRITE := Config(30, 10.0)

  datatype Bucket = Bucket(tokens: real, last: real)

  function Min(a: real, b: real): real {
    if a <= b then a else b
  }

  /** `Instant::duration_since`: never negative. */
  function Since(now: real, last: real): real {
    if now >= last then now - last else 0.0
  }

  /** The tokens that come in over `secs` seconds. */
  function Earned(cfg: Config, secs: real): real {
    secs * cfg.refill
  }

  /** The tokens of a bucket at a later time, before any are taken. */
  function Refilled(cfg: Config, b: Bucket, now: real): real {
    Min(b.tokens + Earned(cfg, Since(now, b.last)), cfg.burst as real)
  }

  type Buckets = map<Ip, Bucket>

  /** The tokens a key has to spend: a key without a bucket starts full. */
  function Available(cfg: Config, m: Buckets, key: Ip, now: real): real {
    Refilled(cfg, if key in m then m[key] else Bucket(cfg.burst as real, now), now)
  }

  function Allowed(cfg: Config, m: Buckets, key: Ip, now: real): bool {
    Available(cfg, m, key, now) >= 1.0
  }

  /** The map after a check by a limiter that never forgets a bucket. */
  function Checked(cfg: Config, m: Buckets, key: Ip, now: real): Buckets {
    var t := Available(cfg, m, key, now);
    m[key := Bucket(if t >= 1.0 then t - 1.0 else t, now)]
  }

  function Swept(m: Buckets, now: real): Buckets {
    map k | k in m && Since(now, m[k].last) < IDLE_SECS :: m[k]
  }

  /** The map after a check: an allowed one may sweep. */
  function Step(cfg: Config, m: Buckets, key: Ip, now: real): Buckets {
    var m' := Checked(cfg, m, key, now);
    if Allowed(cfg, m, key, now) && |m'| > CLEANUP_ABOVE then Swept(m', now) else m'
  }

  /** A check forgets another address only if it is allowed, more than ten thousand
      are remembered, and that one has not asked for ten minutes; it changes none. */
  lemma OnlyIdleAreForgotten(cfg: Config, m: Buckets, key: Ip, now: real, k: Ip)
    requires k in m && k != key
    ensures var after := Step(cfg, m, key, now);
            && (k in after ==> after[k] == m[k])
            && (k !in after <==>
                  && Allowed(cfg, m, key, now) && |m.Keys + {key}| > 10_000
                  && now >= m[k].last && now - m[k].last >= 600.0)
  {
    var kept := Checked(cfg, m, key, now);
    assert kept.Keys == m.Keys + {key} && |kept| == |kept.Keys|;
  }

  class Limiter {
    var buckets: Buckets
    const cfg: Config

    constructor (cfg: Config)
      ensures this.cfg == cfg && buckets == map[]
    {
      this.cfg := cfg;
      buckets := map[];
    }

    method Check(ip: Ip, now: real) returns (ok: bool)
      requires ip.Valid()
      modifies this
      ensures ok == Allowed(cfg, old(buckets), Canonical(ip), now)
      ensures buckets == Step(cfg, old(buckets), Canonical(ip), now)
    {
      hide Earned;
      var key := Canonical(ip);
      ghost var before := buckets;
      if key !in buckets {
        buckets := buckets[key := Bucket(cfg.burst as real, now)];
      }
      var elapsed := Since(now, buckets[key].last);
      var tokens := Min(buckets[key].tokens + Earned(cfg, elapsed), cfg.burst as real);
      assert tokens == Available(cfg, before, key, now);
      buckets := buckets[key := Bucket(tokens, now)];
      assert buckets == before[key := Bucket(tokens, now)];
      if tokens >= 1.0 {
        buckets := buckets[key := Bucket(tokens - 1.0, now)];
        assert buckets == before[key := Bucket(tokens - 1.0, now)];
        if |buckets| > CLEANUP_ABOVE {
          buckets := map k | k in buckets && Since(now, buckets[k].last) < IDLE_SECS :: buckets[k];
        }
        return true;
      } else {
        return false;
      }
    }
  }

  // ---- Runs ------------------------------------------------------------------------

  datatype Request = Request(key: Ip, at: real)

  /** Clock readings in the order in which the lock is taken. */
  predicate InOrder(rs: seq<Request>, from: real) {
    && (|rs| > 0 ==> rs[0].at >= from)
    && forall i, j :: 0 <= i < j < |rs| ==> rs[i].at <= rs[j].at
  }

  function Decisions(cfg: Config, m: Buckets, rs: seq<Request>): seq<bool>
    decreases |rs|
  {
    if rs == [] then []
    else [Allowed(cfg, m, rs[0].key, rs[0].at)] + Decisions(cfg, Step(cfg, m, rs[0].key, rs[0].at), rs[1..])
  }

  /** The decisions of a limiter that never forgets a bucket. */
  function PerfectDecisions(cfg: Config, m: Buckets, rs: seq<Request>): seq<bool>
    decreases |rs|
  {
    if rs == [] then []
    else [Allowed(cfg, m, rs[0].key, rs[0].at)] + PerfectDecisions(cfg, Checked(cfg, m, rs[0].key, rs[0].at), rs[1..])
  }

  /** No bucket is from the future, and none is negative or over the burst. */
  predicate Sane(cfg: Config, m: Buckets, now: real) {
    forall k :: k in m ==> m[k].last <= now && 0.0 <= m[k].tokens <= cfg.burst as real
  }

  /** Where the two maps differ, the remembered bucket has refilled. */
  predicate Agrees(cfg: Config, m: Buckets, full: Buckets, now: real) {
    && (forall k :: k in m ==> k in full && full[k] == m[k])
    && (forall k :: k in full && k !in m ==> Refilled(cfg, full[k], now) >= cfg.burst as real)
  }

  /** An idle bucket refills wholly before it may be swept. */
  predicate RefillsWhenIdle(cfg: Config) {
    IDLE_SECS * cfg.refill >= cfg.burst as real
  }

  lemma BuiltInConfigsRefill()
    ensures RefillsWhenIdle(AUTH) && RefillsWhenIdle(STICKER_FEDERATION) && RefillsWhenIdle(WRITE)
  {
  }

  lemma RefilledGrows(cfg: Config, b: Bucket, now: real, later: real)
    requires cfg.refill >= 0.0 && b.last <= now <= later
    ensures Refilled(cfg, b, now) <= Refilled(cfg, b, later)
  {
    hide Earned;
    EarnedMono(cfg, now - b.last, later - b.last);
  }

  lemma EarnedMono(cfg: Config, a: real, b: real)
    requires a <= b && cfg.refill >= 0.0
    ensures Earned(cfg, a) <= Earned(cfg, b)
    ensures Earned(cfg, 0.0) == 0.0
  {
    MulMono(a, b, cfg.refill);
  }

  lemma MulMono(a: real, b: real, c: real)
    requires a <= b && c >= 0.0
    ensures a * c <= b * c
  {
  }

  lemma StepSane(cfg: Config, m: Buckets, key: Ip, now: real)
    requires cfg.refill >= 0.0 && Sane(cfg, m, now)
    ensures Sane(cfg, Checked(cfg, m, key, now), now) && Sane(cfg, Step(cfg, m, key, now), now)
  {
    var b := if key in m then m[key] else Bucket(cfg.burst as real, now);
    MulMono(0.0, now - b.last, cfg.refill);
  }

  lemma SameAvailable(cfg: Config, m: Buckets, full: Buckets, key: Ip, now: real)
    requires cfg.refill >= 0.0 && Agrees(cfg, m, full, now)
    ensures Available(cfg, m, key, now) == Available(cfg, full, key, now)
  {
    if key !in m {
      assert Refilled(cfg, Bucket(cfg.burst as real, now), now) == cfg.burst as real;
    }
  }

  lemma CheckedAgrees(cfg: Config, m: Buckets, full: Buckets, key: Ip, now: real)
    requires cfg.refill >= 0.0 && Agrees(cfg, m, full, now)
    ensures Agrees(cfg, Checked(cfg, m, key, now), Checked(cfg, full, key, now), now)
  {
    SameAvailable(cfg, m, full, key, now);
    hide Available, Refilled;
  }

  lemma SweptAgrees(cfg: Config, m: Buckets, full: Buckets, now: real)
    requires cfg.refill >= 0.0 && RefillsWhenIdle(cfg)
    requires Sane(cfg, full, now) && Agrees(cfg, m, full, now)
    ensures Agrees(cfg, Swept(m, now), full, now)
  {
    forall k | k in full && k !in Swept(m, now) ensures Refilled(cfg, full[k], now) >= cfg.burst as real {
      if k in m {
        MulMono(IDLE_SECS, Since(now, full[k].last), cfg.refill);
      }
    }
  }

  lemma StepAgrees(cfg: Config, m: Buckets, full: Buckets, key: Ip, now: real)
    requires cfg.refill >= 0.0 && RefillsWhenIdle(cfg)
    requires Sane(cfg, full, now) && Agrees(cfg, m, full, now)
    ensures Allowed(cfg, m, key, now) == Allowed(cfg, full, key, now)
    ensures Agrees(cfg, Step(cfg, m, key, now), Checked(cfg, full, key, now), now)
  {
    hide Available, Refilled, Agrees, Sane, Checked, Swept;
    SameAvailable(cfg, m, full, key, now);
    CheckedAgrees(cfg, m, full, key, now);
    StepSane(cfg, full, key, now);
    SweptAgrees(cfg, Checked(cfg, m, key, now), Checked(cfg, full, key, now), now);
  }

  lemma AgreesLater(cfg: Config, m: Buckets, full: Buckets, now: real, later: real)
    requires cfg.refill >= 0.0 && Sane(cfg, full, now) && Agrees(cfg, m, full, now) && now <= later
    ensures Agrees(cfg, m, full, later) && Sane(cfg, full, later)
  {
    forall k | k in full && k !in m ensures Refilled(cfg, full[k], later) >= cfg.burst as real {
      RefilledGrows(cfg, full[k], now, later);
    }
  }

  /** The clean-up changes no decision of any run. */
  lemma {:induction false} CleanupIsInvisible(cfg: Config, m: Buckets, full: Buckets, rs: seq<Request>, now: real)
    requires cfg.refill >= 0.0 && RefillsWhenIdle(cfg)
    requires Sane(cfg, full, now) && Agrees(cfg, m, full, now) && InOrder(rs, now)
    ensures Decisions(cfg, m, rs) == PerfectDecisions(cfg, full, rs)
    decreases |rs|
  {
    if rs != [] {
      var r := rs[0];
      AgreesLater(cfg, m, full, now, r.at);
      StepAgrees(cfg, m, full, r.key, r.at);
      StepSane(cfg, full, r.key, r.at);
      CleanupIsInvisible(cfg, Step(cfg, m, r.key, r.at), Checked(cfg, full, r.key, r.at), rs[1..], r.at);
    }
  }

  // ---- The rate ------------------------------------------------------------------------

  /** How many requests of `key` a run allows. */
  function Count(ds: seq<bool>, rs: seq<Request>, key: Ip): nat
    requires |ds| == |rs|
  {
    if rs == [] then 0
    else (if ds[0] && rs[0].key == key then 1 else 0) + Count(ds[1..], rs[1..], key)
  }

  lemma {:induction false} DecisionsLength(cfg: Config, m: Buckets, rs: seq<Request>)
    ensures |Decisions(cfg, m, rs)| == |rs| == |PerfectDecisions(cfg, m, rs)|
    decreases |rs|
  {
    if rs != [] {
      DecisionsLength(cfg, Step(cfg, m, rs[0].key, rs[0].at), rs[1..]);
      DecisionsLength(cfg, Checked(cfg, m, rs[0].key, rs[0].at), rs[1..]);
    }
  }

  /** The tokens that come in between two times. */
  function Income(cfg: Config, from: real, until: real): real {
    Earned(cfg, until - from)
  }

  lemma IncomeAdds(cfg: Config, a: real, b: real, c: real)
    requires cfg.refill >= 0.0 && a <= b <= c
    ensures Income(cfg, a, c) == Income(cfg, a, b) + Income(cfg, b, c)
    ensures Income(cfg, a, b) >= 0.0 && Income(cfg, b, c) >= 0.0
  {
    Distribute(a, b, c, cfg.refill);
    MulMono(0.0, b - a, cfg.refill);
    MulMono(0.0, c - b, cfg.refill);
  }

  lemma RefilledTwice(cfg: Config, b: Bucket, now: real, later: real)
    requires cfg.refill >= 0.0 && b.last <= now <= later
    ensures Refilled(cfg, b, later) <= Refilled(cfg, b, now) + Income(cfg, now, later)
  {
    MulMono(0.0, later - now, cfg.refill);
    Distribute(b.last, now, later, cfg.refill);
    MinPlus(b.tokens + (now - b.last) * cfg.refill, (later - now) * cfg.refill, cfg.burst as real);
  }

  lemma MinPlus(t: real, more: real, cap: real)
    requires more >= 0.0
    ensures Min(t + more, cap) <= Min(t, cap) + more
  {
  }

  lemma RefilledInRange(cfg: Config, b: Bucket, now: real)
    requires cfg.refill >= 0.0 && b.last <= now && 0.0 <= b.tokens <= cfg.burst as real
    ensures 0.0 <= Refilled(cfg, b, now) <= cfg.burst as real
  {
    MulMono(0.0, now - b.last, cfg.refill);
  }

  lemma NewIsFull(cfg: Config, m: Buckets, key: Ip, now: real)
    requires key !in m
    ensures Available(cfg, m, key, now) == cfg.burst as real
  {
    assert Since(now, now) * cfg.refill == 0.0;
  }

  lemma AvailableLater(cfg: Config, m: Buckets, key: Ip, now: real, later: real)
    requires cfg.refill >= 0.0 && Sane(cfg, m, now) && now <= later
    ensures 0.0 <= Available(cfg, m, key, later) <= Available(cfg, m, key, now) + Income(cfg, now, later)
    ensures Available(cfg, m, key, later) <= cfg.burst as real
  {
    if key in m {
      hide Refilled, Income;
      RefilledInRange(cfg, m[key], later);
      RefilledTwice(cfg, m[key], now, later);
    } else {
      NewIsFull(cfg, m, key, now);
      NewIsFull(cfg, m, key, later);
      IncomeAdds(cfg, now, later, later);
      hide Available, Income;
    }
  }

  /** A check takes one token from its own key if it allows, and none otherwise. */
  lemma AvailableAfter(cfg: Config, m: Buckets, r: Request, key: Ip)
    requires cfg.refill >= 0.0 && Sane(cfg, m, r.at)
    ensures Available(cfg, Checked(cfg, m, r.key, r.at), key, r.at) ==
            Available(cfg, m, key, r.at) - (if r.key == key && Allowed(cfg, m, key, r.at) then 1.0 else 0.0)
  {
    AvailableLater(cfg, m, key, r.at, r.at);
  }

  lemma Distribute(a: real, b: real, c: real, x: real)
    ensures (c - a) * x == (c - b) * x + (b - a) * x
  {
  }

  /** What a key can still get is what it has now and what comes in by then. */
  lemma {:induction false} PerfectRate(cfg: Config, m: Buckets, rs: seq<Request>, key: Ip, now: real, until: real)
    requires cfg.refill >= 0.0 && Sane(cfg, m, now) && InOrder(rs, now)
    requires now <= until && forall i :: 0 <= i < |rs| ==> rs[i].at <= until
    ensures |PerfectDecisions(cfg, m, rs)| == |rs|
    ensures Count(PerfectDecisions(cfg, m, rs), rs, key) as real <=
            Available(cfg, m, key, now) + Income(cfg, now, until)
    decreases |rs|
  {
    hide Available, Checked, Sane, Refilled, Income;
    DecisionsLength(cfg, m, rs);
    if rs == [] {
      AvailableLater(cfg, m, key, now, now);
      IncomeAdds(cfg, now, now, until);
    } else {
      var r := rs[0];
      var m' := Checked(cfg, m, r.key, r.at);
      SaneLater(cfg, m, now, r.at);
      StepSane(cfg, m, r.key, r.at);
      PerfectRate(cfg, m', rs[1..], key, r.at, until);
      AvailableLater(cfg, m, key, now, r.at);
      AvailableAfter(cfg, m, r, key);
      IncomeAdds(cfg, now, r.at, until);
      var ds := PerfectDecisions(cfg, m, rs);
      assert ds[0] == Allowed(cfg, m, r.key, r.at) && ds[1..] == PerfectDecisions(cfg, m', rs[1..]);
    }
  }

  lemma SaneLater(cfg: Config, m: Buckets, now: real, later: real)
    requires Sane(cfg, m, now) && now <= later
    ensures Sane(cfg, m, later)
  {
  }

  lemma RateWithinIncome(cfg: Config, m: Buckets, rs: seq<Request>, key: Ip, from: real, until: real)
    requires cfg.refill >= 0.0 && RefillsWhenIdle(cfg) && Sane(cfg, m, from) && InOrder(rs, from)
    requires from <= until && forall i :: 0 <= i < |rs| ==> rs[i].at <= until
    ensures |Decisions(cfg, m, rs)| == |rs|
    ensures Count(Decisions(cfg, m, rs), rs, key) as real <= cfg.burst as real + Income(cfg, from, until)
  {
    assert Agrees(cfg, m, m, from);
    hide Available, Decisions, PerfectDecisions, Count, Sane, Agrees, RefillsWhenIdle, Income;
    DecisionsLength(cfg, m, rs);
    CleanupIsInvisible(cfg, m, m, rs, from);
    PerfectRate(cfg, m, rs, key, from, until);
    AvailableLater(cfg, m, key, from, from);
    IncomeAdds(cfg, from, from, until);
  }

  lemma IncomeIs(cfg: Config, from: real, until: real)
    ensures Income(cfg, from, until) == (until - from) * cfg.refill
  {
  }

  /** Between two times a key is allowed at most the burst and what refills in
      between, in every run and whatever came before. */
  lemma RateIsBounded(cfg: Config, m: Buckets, rs: seq<Request>, key: Ip, from: real, until: real)
    requires cfg.refill >= 0.0 && RefillsWhenIdle(cfg) && Sane(cfg, m, from) && InOrder(rs, from)
    requires from <= until && forall i :: 0 <= i < |rs| ==> rs[i].at <= until
    ensures |Decisions(cfg, m, rs)| == |rs|
    ensures Count(Decisions(cfg, m, rs), rs, key) as real <= cfg.burst as real + (until - from) * cfg.refill
  {
    IncomeIs(cfg, from, until);
    hide *;
    RateWithinIncome(cfg, m, rs, key, from, until);
  }
}
