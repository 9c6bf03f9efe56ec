/** Voice packets: the cleartext header and the nonce of a sealed packet, the
    wrapped-key layout, and the loss measured from the packet counters. */
module VoiceLoss {
  import opened Bytes
  import opened Basics

  const HEADER_LEN: nat := 16
  const TAG_LEN: nat := 16
  const WRAP_LEN: nat := 40
  const CTR_OFFSET: nat := 4
  const CTR_LEN: nat := 8

  // ---- Sealed packets ------------------------------------------------------------

  /** An authenticated cipher: key, nonce, message, associated data. */
  datatype Aead = Aead(
    seal: (seq<byte>, seq<byte>, seq<byte>, seq<byte>) -> seq<byte>,
    open: (seq<byte>, seq<byte>, seq<byte>, seq<byte>) -> Option<seq<byte>>)

  /** Opening inverts sealing under the same key, nonce and associated data, and
      a sealed message carries a tag. */
  ghost predicate Opens(a: Aead) {
    forall k, n, m, d :: a.open(k, n, a.seal(k, n, m, d), d) == Some(m) && |a.seal(k, n, m, d)| >= TAG_LEN
  }

  function Header(keyId: u32, ctr: u64, ts: u32): (h: seq<byte>)
    ensures |h| == HEADER_LEN
  {
    BeBytes(keyId, 4) + BeBytes(ctr, 8) + BeBytes(ts, 4)
  }

  function Nonce(salt: seq<byte>, ctr: u64): seq<byte> {
    salt + BeBytes(ctr, 8)
  }

  function Sealed(a: Aead, key: seq<byte>, salt: seq<byte>, keyId: u32, ctr: u64, ts: u32, opus: seq<byte>): seq<byte> {
    var h := Header(keyId, ctr, ts);
    h + a.seal(key, Nonce(salt, ctr), opus, h)
  }

  /** Copies each field into its place in a fixed array. */
  method VoicePacketSeal(a: Aead, key: seq<byte>, salt: seq<byte>, keyId: u32, ctr: u64, ts: u32, opus: seq<byte>)
    returns (packet: seq<byte>)
    requires |salt| == 4
    ensures packet == Sealed(a, key, salt, keyId, ctr, ts, opus)
  {
    hide BeBytes;
    var header := new byte[HEADER_LEN](_ => 0);
    CopyInto(header, 0, BeBytes(keyId, 4));
    assert header[..4] == BeBytes(keyId, 4);
    CopyInto(header, 4, BeBytes(ctr, 8));
    assert header[..12] == BeBytes(keyId, 4) + BeBytes(ctr, 8);
    CopyInto(header, 12, BeBytes(ts, 4));
    assert header[..] == Header(keyId, ctr, ts);
    var nonce := new byte[12](_ => 0);
    CopyInto(nonce, 0, salt);
    assert nonce[..4] == salt;
    CopyInto(nonce, 4, BeBytes(ctr, 8));
    assert nonce[..] == Nonce(salt, ctr);
    packet := header[..] + a.seal(key, nonce[..], opus, header[..]);
  }

  method CopyInto(dst: array<byte>, at: nat, src: seq<byte>)
    requires at + |src| <= dst.Length
    modifies dst
    ensures dst[..] == old(dst[..at]) + src + old(dst[at + |src|..])
  {
    var i := 0;
    while i < |src|
      invariant i <= |src|
      invariant forall j :: 0 <= j < dst.Length ==>
                  dst[j] == if at <= j < at + i then src[j - at] else old(dst[j])
    {
      dst[at + i] := src[i];
      i := i + 1;
    }
  }

  datatype Opened = Opened(keyId: nat, ctr: nat, ts: nat, opus: seq<byte>)

  function VoicePacketOpen(a: Aead, key: seq<byte>, salt: seq<byte>, packet: seq<byte>): Option<Opened> {
    if |packet| < HEADER_LEN + TAG_LEN then None
    else
      var h := packet[..HEADER_LEN];
      match a.open(key, salt + h[4..12], packet[HEADER_LEN..], h)
      case None => None
      case Some(opus) => Some(Opened(FromBe(h[0..4]), FromBe(h[4..12]), FromBe(h[12..16]), opus))
  }

  /** The counter the relay reads from the cleartext, if the packet has one. */
  function ReadCtr(payload: seq<byte>): Option<nat> {
    if |payload| < CTR_OFFSET + CTR_LEN then None else Some(FromBe(payload[CTR_OFFSET..CTR_OFFSET + CTR_LEN]))
  }

  /** Any twelve bytes have a counter, and no fewer do. */
  lemma ReadCtrIff(payload: seq<byte>)
    ensures ReadCtr(payload).Some? <==> |payload| >= 12
    ensures |payload| >= 12 ==> ReadCtr(payload) == ReadCtr(payload[..12])
  {
    if |payload| >= 12 {
      assert payload[..12][4..12] == payload[4..12];
    }
  }

  lemma HeaderFields(keyId: u32, ctr: u64, ts: u32, rest: seq<byte>)
    ensures var p := Header(keyId, ctr, ts) + rest;
            && FromBe(p[0..4]) == keyId && FromBe(p[4..12]) == ctr && FromBe(p[12..16]) == ts
            && p[4..12] == BeBytes(ctr, 8) && p[..HEADER_LEN] == Header(keyId, ctr, ts) && p[HEADER_LEN..] == rest
  {
    Pow256Values();
    FromBeOfBeBytes(keyId, 4);
    FromBeOfBeBytes(ctr, 8);
    FromBeOfBeBytes(ts, 4);
    hide FromBe, BeBytes;
    var p := Header(keyId, ctr, ts) + rest;
    assert p[0..4] == BeBytes(keyId, 4);
    assert p[4..12] == BeBytes(ctr, 8);
    assert p[12..16] == BeBytes(ts, 4);
  }

  /** What was sealed is opened, and the relay reads the sealed counter without
      the key. */
  lemma OpenOfSealed(a: Aead, key: seq<byte>, salt: seq<byte>, keyId: u32, ctr: u64, ts: u32, opus: seq<byte>)
    requires Opens(a)
    ensures var p := Sealed(a, key, salt, keyId, ctr, ts, opus);
            && VoicePacketOpen(a, key, salt, p) == Some(Opened(keyId, ctr, ts, opus))
            && ReadCtr(p) == Some(ctr)
  {
    var h := Header(keyId, ctr, ts);
    var c := a.seal(key, Nonce(salt, ctr), opus, h);
    HeaderFields(keyId, ctr, ts, c);
    hide FromBe, BeBytes, Header;
    assert a.open(key, Nonce(salt, ctr), c, h) == Some(opus) && |c| >= TAG_LEN;
    var p := h + c;
    assert p[..HEADER_LEN] == h;
    assert h[4..12] == p[4..12] && h[0..4] == p[0..4] && h[12..16] == p[12..16];
  }

  /** Under one salt, packets with distinct counters have distinct nonces. */
  lemma NonceIsFresh(salt: seq<byte>, a: u64, b: u64)
    ensures Nonce(salt, a) == Nonce(salt, b) <==> a == b
  {
    Pow256Values();
    FromBeOfBeBytes(a, 8);
    FromBeOfBeBytes(b, 8);
    hide FromBe, BeBytes;
    assert Nonce(salt, a)[|salt|..] == BeBytes(a, 8) && Nonce(salt, b)[|salt|..] == BeBytes(b, 8);
  }

  // ---- Wrapped keys ----------------------------------------------------------------

  function WrapPlaintext(senderKey: seq<byte>, salt: seq<byte>, keyId: u32): seq<byte> {
    senderKey + salt + BeBytes(keyId, 4)
  }

  function Unwrapped(plaintext: seq<byte>): Option<(seq<byte>, seq<byte>, nat)> {
    if |plaintext| != WRAP_LEN then None
    else Some((plaintext[..32], plaintext[32..36], FromBe(plaintext[36..40])))
  }

  lemma UnwrapOfWrap(senderKey: seq<byte>, salt: seq<byte>, keyId: u32)
    requires |senderKey| == 32 && |salt| == 4
    ensures Unwrapped(WrapPlaintext(senderKey, salt, keyId)) == Some((senderKey, salt, keyId))
  {
    Pow256Values();
    FromBeOfBeBytes(keyId, 4);
    hide FromBe, BeBytes;
    var p := WrapPlaintext(senderKey, salt, keyId);
    assert p[..32] == senderKey && p[32..36] == salt && p[36..40] == BeBytes(keyId, 4);
  }

  // ---- Loss --------------------------------------------------------------------------

  datatype SenderLoss = SenderLoss(highest: u64, first: u64, received: nat)

  function Max(a: u64, b: u64): u64 { if a >= b then a else b }

  function Least(a: u64, b: u64): u64 { if a <= b then a else b }

  function Track(prev: Option<SenderLoss>, ctr: u64): SenderLoss {
    match prev
    case None => SenderLoss(ctr, ctr, 1)
    case Some(p) => SenderLoss(Max(p.highest, ctr), Least(p.first, ctr), p.received + 1)
  }

  function TrackAll(prev: Option<SenderLoss>, ctrs: seq<u64>): Option<SenderLoss>
    decreases |ctrs|
  {
    if ctrs == [] then prev else TrackAll(Some(Track(prev, ctrs[0])), ctrs[1..])
  }

  /** `expected` is a 64-bit number: the full span of 2^64 counters wraps to 0. */
  function Expected(t: SenderLoss): nat {
    ((if t.highest >= t.first then t.highest - t.first else 0) + 1) % TWO64
  }

  function Lost(t: SenderLoss): nat {
    if Expected(t) >= t.received then Expected(t) - t.received else 0
  }

  /** Tenths of a percent; `None` while there is nothing to judge. */
  function LossPermille(t: Option<SenderLoss>): Option<nat> {
    match t
    case None => None
    case Some(s) =>
      if Expected(s) <= 1 then None
      else if Lost(s) == 0 then Some(0)
      else Some(RoundDiv(Lost(s) * 1000, Expected(s)))
  }

  // ---- What the tracker holds -----------------------------------------------------------

  function Highest(ctrs: seq<u64>): u64
    requires ctrs != []
  {
    if |ctrs| == 1 then ctrs[0] else Max(ctrs[0], Highest(ctrs[1..]))
  }

  function Lowest(ctrs: seq<u64>): u64
    requires ctrs != []
  {
    if |ctrs| == 1 then ctrs[0] else Least(ctrs[0], Lowest(ctrs[1..]))
  }

  lemma {:induction false} TrackedFrom(p: SenderLoss, ctrs: seq<u64>)
    ensures TrackAll(Some(p), ctrs) ==
            Some(if ctrs == [] then p
                 else SenderLoss(Max(p.highest, Highest(ctrs)), Least(p.first, Lowest(ctrs)), p.received + |ctrs|))
    decreases |ctrs|
  {
    if ctrs != [] {
      TrackedFrom(Track(Some(p), ctrs[0]), ctrs[1..]);
    }
  }

  lemma TrackedIs(ctrs: seq<u64>)
    requires ctrs != []
    ensures TrackAll(None, ctrs) == Some(SenderLoss(Highest(ctrs), Lowest(ctrs), |ctrs|))
  {
    TrackedFrom(Track(None, ctrs[0]), ctrs[1..]);
  }

  lemma {:induction false} Extremes(ctrs: seq<u64>)
    requires ctrs != []
    ensures Highest(ctrs) in ctrs && Lowest(ctrs) in ctrs
    ensures forall c :: c in ctrs ==> Lowest(ctrs) <= c <= Highest(ctrs)
    decreases |ctrs|
  {
    if |ctrs| > 1 {
      Extremes(ctrs[1..]);
      assert ctrs == [ctrs[0]] + ctrs[1..];
    }
  }

  /** Reordering changes nothing: the same counters in any order leave the same
      tracker. */
  lemma OrderDoesNotMatter(a: seq<u64>, b: seq<u64>)
    requires multiset(a) == multiset(b)
    ensures TrackAll(None, a) == TrackAll(None, b)
  {
    assert |a| == |multiset(a)| && |b| == |multiset(b)|;
    assert |a| == |b|;
    if a != [] {
      TrackedIs(a);
      TrackedIs(b);
      Extremes(a);
      Extremes(b);
      assert Highest(a) in multiset(a) && Lowest(a) in multiset(a);
      assert Highest(b) in multiset(b) && Lowest(b) in multiset(b);
      assert Highest(a) in b && Lowest(a) in b && Highest(b) in a && Lowest(b) in a;
    }
  }

  // ---- What the loss means ----------------------------------------------------------------

  function Seen(ctrs: seq<u64>): set<int> {
    set c | c in ctrs
  }

  function Range(lo: int, n: nat): (s: set<int>)
    ensures |s| == n && forall c :: c in s <==> lo <= c < lo + n
  {
    if n == 0 then {} else Range(lo, n - 1) + {lo + n - 1}
  }

  /** The counters between the lowest and the highest that never arrived. */
  function Missing(ctrs: seq<u64>): set<int>
    requires ctrs != []
  {
    Extremes(ctrs);
    Range(Lowest(ctrs), Highest(ctrs) - Lowest(ctrs) + 1) - Seen(ctrs)
  }

  lemma {:induction false} SeenSize(ctrs: seq<u64>)
    ensures |Seen(ctrs)| <= |ctrs|
    ensures |Seen(ctrs)| == |ctrs| <==> Distinct(ctrs)
    decreases |ctrs|
  {
    if ctrs != [] {
      var c, rest := ctrs[0], ctrs[1..];
      SeenSize(rest);
      assert Seen(ctrs) == Seen(rest) + {c};
      if c in Seen(rest) {
        var i :| 0 <= i < |rest| && rest[i] == c;
        assert ctrs[i + 1] == ctrs[0];
      } else {
        assert forall i :: 0 <= i < |rest| ==> ctrs[i + 1] == rest[i];
        assert Distinct(ctrs) <==> Distinct(rest) by {
          forall i, j | Distinct(rest) && 0 <= i < j < |ctrs| ensures ctrs[i] != ctrs[j] {
            if i == 0 { assert rest[j - 1] in Seen(rest); }
          }
          forall i, j | Distinct(ctrs) && 0 <= i < j < |rest| ensures rest[i] != rest[j] {
            assert ctrs[i + 1] != ctrs[j + 1];
          }
        }
      }
    }
  }

  lemma MissingSize(ctrs: seq<u64>)
    requires ctrs != []
    ensures |Missing(ctrs)| == Highest(ctrs) - Lowest(ctrs) + 1 - |Seen(ctrs)|
  {
    Extremes(ctrs);
    var all := Range(Lowest(ctrs), Highest(ctrs) - Lowest(ctrs) + 1);
    assert Seen(ctrs) <= all;
  }

  /** The tracker's numbers in terms of the counters that came. */
  lemma TrackedNumbers(ctrs: seq<u64>)
    requires ctrs != [] && Highest(ctrs) - Lowest(ctrs) < TWO64 - 1
    ensures TrackAll(None, ctrs).Some?
    ensures var t := TrackAll(None, ctrs).value;
            && Expected(t) == Highest(ctrs) - Lowest(ctrs) + 1 == |Missing(ctrs)| + |Seen(ctrs)|
            && t.received == |ctrs|
  {
    TrackedIs(ctrs);
    Extremes(ctrs);
    MissingSize(ctrs);
    hide Expected, Highest, Lowest, Missing, Seen, TrackAll;
    ExpectedIs(SenderLoss(Highest(ctrs), Lowest(ctrs), |ctrs|));
  }

  lemma ExpectedIs(t: SenderLoss)
    requires t.highest >= t.first && t.highest - t.first < TWO64 - 1
    ensures Expected(t) == t.highest - t.first + 1
  {
  }

  /** The lost count is the number of missing counters exactly when no counter
      came twice or none is missing, for every span short of all 2^64. */
  lemma LostIsMissingIff(ctrs: seq<u64>)
    requires ctrs != [] && Highest(ctrs) - Lowest(ctrs) < TWO64 - 1
    ensures TrackAll(None, ctrs).Some?
    ensures Lost(TrackAll(None, ctrs).value) == |Missing(ctrs)| <==> Distinct(ctrs) || Missing(ctrs) == {}
  {
    TrackedNumbers(ctrs);
    SeenSize(ctrs);
    hide Highest, Lowest, Seen, Missing, Distinct, TrackAll, Expected;
    assert Missing(ctrs) == {} <==> |Missing(ctrs)| == 0;
  }

  /** The figure lies between 0 and 100.0 percent; it is withheld exactly for a
      span of one; with no counter missing it is 0; and when none came twice it
      is the share of the span that is missing, to the nearest tenth. */
  lemma LossInRange(ctrs: seq<u64>)
    requires ctrs != [] && Highest(ctrs) - Lowest(ctrs) < TWO64 - 1
    ensures var f := LossPermille(TrackAll(None, ctrs));
            && (f.None? <==> Highest(ctrs) == Lowest(ctrs))
            && (f.Some? ==> f.value <= 1000)
            && (f.Some? && Missing(ctrs) == {} ==> f.value == 0)
            && (f.Some? && Distinct(ctrs) ==>
                  var span, missing := Highest(ctrs) - Lowest(ctrs) + 1, |Missing(ctrs)|;
                  2000 * missing - span <= 2 * span * f.value <= 2000 * missing + span)
  {
    TrackedNumbers(ctrs);
    SeenSize(ctrs);
    Extremes(ctrs);
    hide Highest, Lowest, Seen, Missing, Distinct, TrackAll, Expected, RoundDiv;
    var t := TrackAll(None, ctrs).value;
    if Expected(t) > 1 && Lost(t) > 0 {
      RoundBelow(Lost(t) * 1000, Expected(t), 1000);
      RoundsToNearest(Lost(t) * 1000, Expected(t));
    }
  }
}
