/** The attachment operations as the hub runs them: each takes the store lock,
    so no other of them comes in between. */
module AttachmentStore {
  import opened Bytes
  import opened Basics
  import opened SqlOrder
  import opened AttachmentDb
  import opened AttachmentRuns

  // ---- What the operations amount to ----------------------------------------

  /** Orphans past the delay go, then every blob no live row wants. */
  function WithoutOrphans(d: Db, now: int): Db {
    Exec(d, DeleteOrphans(now - ORPHAN_AFTER_SECS))
  }

  function Dropped(d: Db, now: int): Db {
    var d1 := WithoutOrphans(d, now);
    DropBlobs(d1, Unwanted(d1)).(files := d1.files - Unwanted(d1))
  }

  /** The blobs `ss` evicted together: their live rows expire, every row on them
      loses its digest, and the files go. */
  function Evicted(d: Db, ss: set<Sha>, now: int): Db {
    d.(rows := map id | id in d.rows :: EvictedRow(d.rows[id], ss, now),
       blobs := d.blobs - ss,
       files := d.files - ss)
  }

  function Elements(ss: seq<Sha>): set<Sha> {
    set s | s in ss
  }

  function TotalOf(blobs: map<Sha, Blob>, ss: seq<Sha>): nat
    requires forall s :: s in ss ==> s in blobs
  {
    if ss == [] then 0 else TotalOf(blobs, ss[..|ss| - 1]) + blobs[ss[|ss| - 1]].size
  }

  /** `k` is how many of `ss`, taken in order, it takes to free `want`. */
  predicate Enough(blobs: map<Sha, Blob>, ss: seq<Sha>, want: int, k: nat)
    requires forall s :: s in ss ==> s in blobs
  {
    && k <= |ss|
    && (k == |ss| || TotalOf(blobs, ss[..k]) >= want)
    && (k > 0 ==> TotalOf(blobs, ss[..k - 1]) < want)
  }

  lemma TotalSnoc(blobs: map<Sha, Blob>, ss: seq<Sha>, i: nat)
    requires forall s :: s in ss ==> s in blobs
    requires i < |ss|
    ensures TotalOf(blobs, ss[..i + 1]) == TotalOf(blobs, ss[..i]) + blobs[ss[i]].size
  {
    assert ss[..i + 1][..i] == ss[..i];
  }

  lemma TotalMonotone(blobs: map<Sha, Blob>, ss: seq<Sha>, i: nat, j: nat)
    requires forall s :: s in ss ==> s in blobs
    requires i <= j <= |ss|
    ensures TotalOf(blobs, ss[..i]) <= TotalOf(blobs, ss[..j])
    decreases j
  {
    if i < j {
      assert ss[..j][..j - 1] == ss[..j - 1];
      TotalMonotone(blobs, ss, i, j - 1);
    }
  }

  lemma EnoughIsUnique(blobs: map<Sha, Blob>, ss: seq<Sha>, want: int, j: nat, k: nat)
    requires forall s :: s in ss ==> s in blobs
    requires Enough(blobs, ss, want, j) && Enough(blobs, ss, want, k)
    ensures j == k
  {
    if j < k {
      TotalMonotone(blobs, ss, j, k - 1);
    } else if k < j {
      TotalMonotone(blobs, ss, k, j - 1);
    }
  }

  function QuotaFrom(blobs: map<Sha, Blob>, ss: seq<Sha>, want: int, k: nat): (q: nat)
    requires forall s :: s in ss ==> s in blobs
    requires k <= |ss| && (k > 0 ==> TotalOf(blobs, ss[..k - 1]) < want)
    ensures Enough(blobs, ss, want, q)
    decreases |ss| - k
  {
    if k == |ss| || TotalOf(blobs, ss[..k]) >= want then k else QuotaFrom(blobs, ss, want, k + 1)
  }

  /** The evicted blobs when `want` bytes are asked for: the shortest prefix of
      the eviction order that frees them, or all of it. */
  function Victims(d: Db, want: int): (ss: seq<Sha>)
    ensures ss <= EvictionOrder(d)
    ensures Enough(d.blobs, EvictionOrder(d), want, |ss|)
  {
    var order := EvictionOrder(d);
    order[..QuotaFrom(d.blobs, order, want, 0)]
  }

  function EvictedFor(d: Db, want: int, now: int): Db {
    Evicted(d, Elements(Victims(d, want)), now)
  }

  /** What `ensure_room` leaves for `need` more bytes under `cap`. */
  ghost function RoomMade(d: Db, need: nat, cap: int, now: int): Db {
    if Used(d) + need <= cap then d
    else
      var d1 := Dropped(d, now);
      if Used(d1) + need <= cap then d1 else EvictedFor(d1, Used(d1) + need - cap, now)
  }

  // ---- Eviction -----------------------------------------------------------------

  function EvictedRow(r: Row, ss: set<Sha>, now: int): Row {
    if r.sha.Some? && r.sha.value in ss then Expired(r, now).(sha := None) else r
  }

  lemma EvictStepRow(r: Row, ss: set<Sha>, s: Sha, now: int)
    requires s !in ss
    ensures var r0 := EvictedRow(r, ss, now);
            var r1 := if r0.sha == Some(s) then Expired(r0, now) else r0;
            (if r1.sha.Some? && r1.sha.value in {s} then r1.(sha := None) else r1) == EvictedRow(r, ss + {s}, now)
  {
  }

  lemma EvictStepRows(rows: map<Id, Row>, ss: set<Sha>, s: Sha, now: int)
    requires s !in ss
    ensures var rows1 := RowsExpiredOn(map id | id in rows :: EvictedRow(rows[id], ss, now), s, now);
            (map id | id in rows1 ::
               if rows1[id].sha.Some? && rows1[id].sha.value in {s} then rows1[id].(sha := None) else rows1[id])
            == map id | id in rows :: EvictedRow(rows[id], ss + {s}, now)
  {
    forall id | id in rows {
      EvictStepRow(rows[id], ss, s, now);
    }
    hide EvictedRow, Expired;
  }

  lemma EvictStep(d: Db, ss: set<Sha>, s: Sha, now: int)
    requires s in d.blobs && s !in ss
    ensures var e := Evicted(d, ss, now);
            Exec(Exec(Exec(e, ExpireRowsOn(s, now)), DeleteBlob(s)), RemoveFile(s)) == Evicted(d, ss + {s}, now)
  {
    var e, f := Evicted(d, ss, now), Evicted(d, ss + {s}, now);
    var e1 := e.(rows := RowsExpiredOn(e.rows, s, now));
    var e2 := DropBlobs(e1, {s});
    assert Exec(e, ExpireRowsOn(s, now)) == e1 && Exec(e1, DeleteBlob(s)) == e2;
    assert Exec(e2, RemoveFile(s)) == e2.(files := e2.files - {s});
    hide Exec;
    EvictStepRows(d.rows, ss, s, now);
    hide EvictedRow, RowsExpiredOn;
    assert e2.blobs == f.blobs;
    assert e2.files - {s} == f.files;
  }

  lemma {:induction false} OrderSuffix(ids: seq<nat>, s: set<nat>, q: map<nat, Rank>, i: nat)
    requires s <= q.Keys && IsOrder(ids, s, q) && i <= |ids|
    ensures IsOrder(ids[i..], s - Elements(ids[..i]), q)
    decreases i
  {
    if i == 0 {
      assert ids[0..] == ids;
    } else {
      OrderSuffix(ids, s, q, i - 1);
      OrderTail(ids[i - 1..], s - Elements(ids[..i - 1]), q);
      assert ids[i - 1..][1..] == ids[i..];
      assert Elements(ids[..i]) == Elements(ids[..i - 1]) + {ids[i - 1]};
      assert s - Elements(ids[..i - 1]) - {ids[i - 1]} == s - Elements(ids[..i]);
    }
  }

  /** After a prefix of the order is evicted, the query asked again returns the
      rest of the same order. */
  lemma RequeryIsSuffix(d: Db, i: nat, now: int)
    requires i <= |EvictionOrder(d)|
    ensures EvictionOrder(Evicted(d, Elements(EvictionOrder(d)[..i]), now)) == EvictionOrder(d)[i..]
  {
    var order := EvictionOrder(d);
    var gone := Elements(order[..i]);
    var e := Evicted(d, gone, now);
    var left := Evictable(d) - gone;
    assert gone <= Evictable(d);
    assert Evictable(e) == left by {
      forall s | s in e.blobs ensures BannerBlob(e, s) <==> BannerBlob(d, s) {
        forall id | id in d.rows ensures e.rows[id].sha == Some(s) <==> d.rows[id].sha == Some(s) {
        }
      }
    }
    OrderSuffix(order, Evictable(d), EvictionRanks(d.blobs), i);
    assert IsOrder(order[i..], left, EvictionRanks(e.blobs));
    OrderUnique(order[i..], EvictionOrder(e), left, EvictionRanks(e.blobs));
  }

  lemma {:induction false} TotalIsSize(blobs: map<Sha, Blob>, ss: seq<Sha>)
    requires forall s :: s in ss ==> s in blobs
    requires Distinct(ss)
    ensures Elements(ss) <= blobs.Keys
    ensures TotalOf(blobs, ss) == SizeOf(blobs, Elements(ss))
    decreases |ss|
  {
    if ss != [] {
      var k := |ss| - 1;
      TotalIsSize(blobs, ss[..k]);
      assert Elements(ss) == Elements(ss[..k]) + {ss[k]};
      assert ss[k] !in Elements(ss[..k]) by {
        forall i | 0 <= i < k ensures ss[..k][i] != ss[k] {
          assert ss[..k][i] == ss[i];
        }
      }
      SizeWithout(blobs, Elements(ss), ss[k]);
      assert Elements(ss) - {ss[k]} == Elements(ss[..k]);
    }
  }

  lemma OrderIsDistinct(ids: seq<nat>, s: set<nat>, q: map<nat, Rank>)
    requires s <= q.Keys && IsOrder(ids, s, q)
    ensures Distinct(ids)
  {
  }

  lemma UsedAfterEviction(d: Db, ss: set<Sha>, now: int)
    requires ss <= d.blobs.Keys
    ensures Used(d) == SizeOf(d.blobs, ss) + Used(Evicted(d, ss, now))
  {
    UsedAfterDrop(d, ss);
    assert DropBlobs(d, ss).blobs == Evicted(d, ss, now).blobs;
  }

  /** Eviction frees exactly the drop in what is used. */
  lemma EvictionConserves(d: Db, want: int, now: int)
    ensures forall s :: s in Victims(d, want) ==> s in d.blobs
    ensures Used(d) == TotalOf(d.blobs, Victims(d, want)) + Used(EvictedFor(d, want, now))
  {
    var ss := Victims(d, want);
    OrderIsDistinct(EvictionOrder(d), Evictable(d), EvictionRanks(d.blobs));
    assert Distinct(ss);
    TotalIsSize(d.blobs, ss);
    UsedAfterEviction(d, Elements(ss), now);
  }

  // ---- The budget ---------------------------------------------------------------

  lemma NothingLeftToEvict(d: Db, want: int, now: int)
    requires |Victims(d, want)| == |EvictionOrder(d)|
    ensures Evictable(EvictedFor(d, want, now)) == {}
  {
    var order := EvictionOrder(d);
    var e := EvictedFor(d, want, now);
    assert order[..|order|] == order;
    assert Victims(d, want) == order;
    RequeryIsSuffix(d, |order|, now);
    assert EvictionOrder(e) == [];
    OrderLength([], Evictable(e), EvictionRanks(e.blobs));
  }

  lemma RoomIsMade(d: Db, need: nat, cap: int, now: int)
    ensures var r := RoomMade(d, need, cap, now);
            Used(r) + need <= cap || Evictable(r) == {}
  {
    hide Used, Dropped, EvictedFor, Evictable;
    if Used(d) + need > cap {
      var d1 := Dropped(d, now);
      if Used(d1) + need > cap {
        EvictionMakesRoom(d1, Used(d1) + need - cap, now);
      }
    }
  }

  /** Eviction frees what is wanted or leaves nothing evictable. */
  lemma EvictionMakesRoom(d: Db, want: int, now: int)
    ensures Used(EvictedFor(d, want, now)) <= Used(d) - want || Evictable(EvictedFor(d, want, now)) == {}
  {
    var ss := Victims(d, want);
    EvictionConserves(d, want, now);
    assert ss == EvictionOrder(d)[..|ss|];
    hide Used, EvictedFor, Evictable, Victims, EvictionOrder;
    if |ss| == |EvictionOrder(d)| {
      NothingLeftToEvict(d, want, now);
    }
  }

  lemma UpsertRespectsCap(r: Db, s: Sha, b: Blob, cap: int)
    requires Used(r) + b.size <= cap || Evictable(r) == {}
    ensures var after := Exec(r, UpsertBlob(s, b));
            || Used(after) <= cap
            || forall t :: t in after.blobs && t != s ==> BannerBlob(after, t)
  {
    var after := Exec(r, UpsertBlob(s, b));
    if Used(r) + b.size <= cap {
      var others := r.blobs.Keys - {s};
      assert after.blobs.Keys - {s} == others;
      SizeWithout(after.blobs, after.blobs.Keys, s);
      SizeSame(after.blobs, r.blobs, others);
      if s in r.blobs {
        SizeWithout(r.blobs, r.blobs.Keys, s);
      } else {
        assert others == r.blobs.Keys;
      }
    } else {
      forall t | t in after.blobs && t != s ensures BannerBlob(after, t) {
        assert t in r.blobs && t !in Evictable(r);
        assert BannerBlob(r, t);
      }
    }
  }

  /** Nothing is evicted for room that dropping unwanted blobs already makes:
      then every live linked row stays as it was. */
  lemma EvictsOnlyIfNeeded(d: Db, need: nat, cap: int, now: int)
    requires Used(Dropped(d, now)) + need <= cap
    ensures forall id :: id in d.rows && d.rows[id].Live() && d.rows[id].Linked() ==>
              id in RoomMade(d, need, cap, now).rows && RoomMade(d, need, cap, now).rows[id] == d.rows[id]
  {
    DroppedKeepsLive(d, now);
  }

  lemma DroppedKeepsLive(d: Db, now: int)
    ensures forall id :: id in d.rows && d.rows[id].Live() && (d.rows[id].Linked() || Pinned(d, id)) ==>
              id in Dropped(d, now).rows && Dropped(d, now).rows[id] == d.rows[id]
  {
    var d1 := WithoutOrphans(d, now);
    forall id | id in d.rows && d.rows[id].Live() && (d.rows[id].Linked() || Pinned(d, id))
      ensures id in Dropped(d, now).rows && Dropped(d, now).rows[id] == d.rows[id]
    {
      assert id in d1.rows && d1.rows[id] == d.rows[id];
      if d.rows[id].sha.Some? {
        assert d1.rows[id].Wants(d.rows[id].sha.value);
      }
    }
  }

  // ---- Banners under the lock -----------------------------------------------------

  /** Every live banner row is still there, unchanged. */
  ghost predicate BannersKept(d: Db, later: Db) {
    later.banners == d.banners
    && forall id :: LiveBanner(d, id) ==> id in later.rows && later.rows[id] == d.rows[id]
  }

  lemma DroppedKeepsBanners(d: Db, now: int)
    ensures BannersKept(d, Dropped(d, now))
  {
    DroppedKeepsLive(d, now);
  }

  lemma EvictedKeepsBanners(d: Db, want: int, now: int)
    ensures BannersKept(d, EvictedFor(d, want, now))
  {
    var ss := Elements(Victims(d, want));
    assert ss <= Evictable(d);
    forall id | LiveBanner(d, id) ensures EvictedFor(d, want, now).rows[id] == d.rows[id] {
      if d.rows[id].sha.Some? {
        assert BannerBlob(d, d.rows[id].sha.value);
      }
    }
  }

  lemma RoomKeepsBanners(d: Db, need: nat, cap: int, now: int)
    ensures BannersKept(d, RoomMade(d, need, cap, now))
  {
    DroppedKeepsBanners(d, now);
    if Used(d) + need > cap && Used(Dropped(d, now)) + need > cap {
      EvictedKeepsBanners(Dropped(d, now), Used(Dropped(d, now)) + need - cap, now);
    }
  }

  // ---- Which blobs go, over the tables ------------------------------------------

  /** Some channel's banner is a row with these bytes. */
  ghost predicate OnBanner(d: Db, s: Sha) {
    exists c :: c in d.banners && d.banners[c] in d.rows && d.rows[d.banners[c]].sha == Some(s)
  }

  /** Linked earlier, or at the same time with the smaller digest. */
  predicate Older(blobs: map<Sha, Blob>, s: Sha, t: Sha)
    requires s in blobs && t in blobs
  {
    blobs[s].lastLinked < blobs[t].lastLinked || (blobs[s].lastLinked == blobs[t].lastLinked && s < t)
  }

  /** No banner's blob went, and none went while an older one that is no banner's
      is left. */
  ghost predicate OldestWent(d: Db, e: Db) {
    && (forall t :: t in d.blobs && t !in e.blobs ==> !OnBanner(d, t))
    && (forall s, t :: s in d.blobs && t in d.blobs && t !in e.blobs && !OnBanner(d, s) && Older(d.blobs, s, t) ==>
          s !in e.blobs)
  }

  /** Of the blobs that went, the one that was linked last. */
  ghost predicate Youngest(d: Db, e: Db, t: Sha) {
    t in d.blobs && t !in e.blobs && forall s :: s in d.blobs && s !in e.blobs && s != t ==> Older(d.blobs, s, t)
  }

  /** Enough was freed or only banners are left, and the youngest that went was
      still needed. */
  ghost predicate JustEnough(d: Db, e: Db, want: int, freed: int) {
    && (freed >= want || forall s :: s in e.blobs ==> OnBanner(d, s))
    && (forall t :: Youngest(d, e, t) ==> freed - d.blobs[t].size < want)
  }

  /** The rows of the blobs that went expire, if live, and lose their digest; all
      other rows, blobs and files stay as they were. */
  predicate RestStays(d: Db, e: Db, now: int) {
    && e.banners == d.banners && e.rows.Keys == d.rows.Keys
    && (forall id :: id in d.rows ==>
          var r := d.rows[id];
          if r.sha.Some? && r.sha.value in d.blobs && r.sha.value !in e.blobs then
            e.rows[id] == r.(sha := None, expired := if r.removed.None? && r.expired.None? then Some(now) else r.expired)
          else e.rows[id] == r)
    && e.blobs == d.blobs - (d.blobs.Keys - e.blobs.Keys)
    && e.files == d.files - (d.blobs.Keys - e.blobs.Keys)
  }

  lemma BannerBlobIs(d: Db, s: Sha)
    ensures BannerBlob(d, s) <==> OnBanner(d, s)
  {
    if BannerBlob(d, s) {
      var id :| id in d.rows && Pinned(d, id) && d.rows[id].sha == Some(s);
      var c :| c in d.banners && d.banners[c] == id;
    }
  }

  lemma OrderIsByAge(d: Db)
    ensures var order := EvictionOrder(d);
            forall i, j :: 0 <= i < j < |order| ==> Older(d.blobs, order[i], order[j]) && !Older(d.blobs, order[j], order[i])
  {
    var order := EvictionOrder(d);
    forall i, j | 0 <= i < j < |order|
      ensures Older(d.blobs, order[i], order[j]) && !Older(d.blobs, order[j], order[i])
    {
      assert Less(EvictionRanks(d.blobs)[order[i]], EvictionRanks(d.blobs)[order[j]]);
    }
  }

  lemma VictimsAreOldest(d: Db, want: int)
    ensures forall t :: t in Victims(d, want) ==> t in d.blobs && !OnBanner(d, t)
    ensures forall s, t :: t in Victims(d, want) && s in d.blobs && !OnBanner(d, s) && Older(d.blobs, s, t) ==>
              s in Victims(d, want)
  {
    var order, ss := EvictionOrder(d), Victims(d, want);
    OrderIsByAge(d);
    forall t | t in ss ensures t in d.blobs && !OnBanner(d, t) {
      assert t in order && t in Evictable(d);
      BannerBlobIs(d, t);
    }
    forall s, t | t in ss && s in d.blobs && !OnBanner(d, s) && Older(d.blobs, s, t) ensures s in ss {
      BannerBlobIs(d, s);
      assert s in Evictable(d) && s in order;
      var i :| 0 <= i < |order| && order[i] == s;
      var j :| 0 <= j < |ss| && ss[j] == t;
      assert order[j] == t && i <= j;
      assert ss[i] == s;
    }
  }

  lemma EvictedIs(d: Db, ss: set<Sha>, now: int)
    requires ss <= d.blobs.Keys
    ensures RestStays(d, Evicted(d, ss, now), now)
    ensures forall t :: t in d.blobs && t !in Evicted(d, ss, now).blobs <==> t in ss
  {
    assert d.blobs.Keys - Evicted(d, ss, now).blobs.Keys == ss;
  }

  lemma EvictedVictims(d: Db, want: int, now: int)
    ensures RestStays(d, EvictedFor(d, want, now), now)
    ensures forall t :: t in d.blobs && t !in EvictedFor(d, want, now).blobs <==> t in Victims(d, want)
    ensures forall t :: t in EvictedFor(d, want, now).blobs ==> t in d.blobs
  {
    VictimsAreOldest(d, want);
    EvictedIs(d, Elements(Victims(d, want)), now);
    hide Victims, Evicted, RestStays, OnBanner;
  }

  lemma OldestGo(d: Db, want: int, now: int)
    ensures OldestWent(d, EvictedFor(d, want, now)) && RestStays(d, EvictedFor(d, want, now), now)
  {
    VictimsAreOldest(d, want);
    EvictedVictims(d, want, now);
    hide EvictedFor, Victims, RestStays, OnBanner;
  }

  lemma OnlyBannersLeft(d: Db, want: int)
    requires |Victims(d, want)| == |EvictionOrder(d)|
    ensures forall s :: s in d.blobs && s !in Victims(d, want) ==> OnBanner(d, s)
  {
    assert Victims(d, want) == EvictionOrder(d);
    hide EvictionOrder, Victims;
    forall s | s in d.blobs && s !in EvictionOrder(d) ensures OnBanner(d, s) {
      BannerBlobIs(d, s);
      assert s !in Evictable(d);
    }
  }

  lemma WithoutTheLast(d: Db, want: int, t: Sha)
    requires t in Victims(d, want)
    requires forall s :: s in Victims(d, want) && s in d.blobs && s != t ==> t in d.blobs && Older(d.blobs, s, t)
    ensures t in d.blobs && forall s :: s in Victims(d, want) ==> s in d.blobs
    ensures TotalOf(d.blobs, Victims(d, want)) - d.blobs[t].size < want
  {
    var order, ss := EvictionOrder(d), Victims(d, want);
    assert ss == order[..|ss|] && Enough(d.blobs, order, want, |ss|);
    var k := |ss| - 1;
    TotalSnoc(d.blobs, order, k);
    OrderIsByAge(d);
    assert ss[k] in ss && ss[k] == order[k];
    assert t == ss[k] by {
      var j :| 0 <= j < |ss| && ss[j] == t;
      assert order[j] == t;
    }
  }

  lemma EnoughOrOnlyBanners(d: Db, want: int)
    ensures forall s :: s in Victims(d, want) ==> s in d.blobs
    ensures TotalOf(d.blobs, Victims(d, want)) >= want || forall s :: s in d.blobs && s !in Victims(d, want) ==> OnBanner(d, s)
  {
    var order, ss := EvictionOrder(d), Victims(d, want);
    assert ss == order[..|ss|] && Enough(d.blobs, order, want, |ss|);
    hide EvictionOrder, Victims, TotalOf, OnBanner;
    if |ss| == |order| {
      OnlyBannersLeft(d, want);
    }
  }

  lemma NoMoreThanNeeded(d: Db, want: int, now: int)
    ensures forall s :: s in Victims(d, want) ==> s in d.blobs
    ensures JustEnough(d, EvictedFor(d, want, now), want, TotalOf(d.blobs, Victims(d, want)))
  {
    EvictedVictims(d, want, now);
    EnoughOrOnlyBanners(d, want);
    hide Victims, TotalOf, EvictedFor, RestStays, OnBanner, Older;
    var ss, e := Victims(d, want), EvictedFor(d, want, now);
    forall t | Youngest(d, e, t) ensures TotalOf(d.blobs, ss) - d.blobs[t].size < want {
      WithoutTheLast(d, want, t);
    }
  }

  /** The row is not an orphan: it has an owner, is less than a day old, or is
      some channel's banner. */
  ghost predicate Kept(d: Db, id: Id, now: int)
    requires id in d.rows
  {
    || d.rows[id].message.Some? || d.rows[id].post.Some? || d.rows[id].reply.Some?
    || d.rows[id].created >= now - 86_400
    || exists c :: c in d.banners && d.banners[c] == id
  }

  /** A live row that is no orphan names these bytes. */
  ghost predicate StillWanted(d: Db, s: Sha, now: int) {
    exists id :: id in d.rows && Kept(d, id, now) && d.rows[id].sha == Some(s)
      && d.rows[id].removed.None? && d.rows[id].expired.None?
  }

  /** The orphans are gone, and with them the blobs and files that no live row
      names any more; a tombstone may lose its digest, and nothing else changes. */
  ghost predicate CleanedUp(d: Db, e: Db, now: int) {
    && e.banners == d.banners
    && (forall id :: id in e.rows <==> id in d.rows && Kept(d, id, now))
    && (forall id :: id in e.rows ==>
          && (e.rows[id] == d.rows[id] || e.rows[id] == d.rows[id].(sha := None))
          && (d.rows[id].removed.None? && d.rows[id].expired.None? ==> e.rows[id] == d.rows[id]))
    && (forall s :: s in e.blobs <==> s in d.blobs && StillWanted(d, s, now))
    && e.blobs == d.blobs - (d.blobs.Keys - e.blobs.Keys)
    && e.files == d.files - (d.blobs.Keys - e.blobs.Keys)
  }

  lemma OrphansGo(d: Db, now: int)
    ensures var d1 := WithoutOrphans(d, now);
            && d1.blobs == d.blobs && d1.files == d.files && d1.banners == d.banners
            && (forall id :: id in d1.rows <==> id in d.rows && Kept(d, id, now))
            && (forall id :: id in d1.rows ==> d1.rows[id] == d.rows[id])
  {
    forall id | id in d.rows ensures Pinned(d, id) <==> exists c :: c in d.banners && d.banners[c] == id {
    }
  }

  lemma WantedIs(d: Db, d1: Db, s: Sha, now: int)
    requires forall id :: id in d1.rows <==> id in d.rows && Kept(d, id, now)
    requires forall id :: id in d1.rows ==> d1.rows[id] == d.rows[id]
    ensures Wanted(d1, s) <==> StillWanted(d, s, now)
  {
    hide Kept;
    if Wanted(d1, s) {
      var id :| id in d1.rows && d1.rows[id].Wants(s);
      assert id in d.rows && d.rows[id].Wants(s);
    }
    if StillWanted(d, s, now) {
      var id :| id in d.rows && Kept(d, id, now) && d.rows[id].sha == Some(s) && d.rows[id].Live();
      assert id in d1.rows && d1.rows[id].Wants(s);
    }
  }

  lemma UnwantedDropped(d: Db)
    ensures var gone := Unwanted(d);
            var e := DropBlobs(d, gone);
            && e.rows.Keys == d.rows.Keys
            && forall id :: id in d.rows ==>
                 && (e.rows[id] == d.rows[id] || e.rows[id] == d.rows[id].(sha := None))
                 && (d.rows[id].Live() ==> e.rows[id] == d.rows[id])
  {
    forall id | id in d.rows && d.rows[id].Live() && d.rows[id].sha.Some? ensures Wanted(d, d.rows[id].sha.value) {
      assert d.rows[id].Wants(d.rows[id].sha.value);
    }
  }

  lemma DroppedIsClean(d: Db, now: int)
    ensures CleanedUp(d, Dropped(d, now), now)
  {
    var d1, e := WithoutOrphans(d, now), Dropped(d, now);
    OrphansGo(d, now);
    forall s: Sha ensures Wanted(d1, s) <==> StillWanted(d, s, now) {
      WantedIs(d, d1, s, now);
    }
    UnwantedDropped(d1);
    var gone := Unwanted(d1);
    assert e == d1.(rows := DropBlobs(d1, gone).rows, blobs := d1.blobs - gone, files := d1.files - gone);
    hide *;
    CleanedFrom(d, d1, gone, e, now);
  }

  lemma CleanedFrom(d: Db, d1: Db, gone: set<Sha>, e: Db, now: int)
    requires d1.blobs == d.blobs && d1.files == d.files && d1.banners == d.banners
    requires forall id :: id in d1.rows <==> id in d.rows && Kept(d, id, now)
    requires forall id :: id in d1.rows ==> d1.rows[id] == d.rows[id]
    requires forall s :: s in gone <==> s in d.blobs && !StillWanted(d, s, now)
    requires e.banners == d.banners && e.blobs == d.blobs - gone && e.files == d.files - gone && e.rows.Keys == d1.rows.Keys
    requires forall id :: id in d1.rows ==>
               && (e.rows[id] == d1.rows[id] || e.rows[id] == d1.rows[id].(sha := None))
               && (d1.rows[id].Live() ==> e.rows[id] == d1.rows[id])
    ensures CleanedUp(d, e, now)
  {
    hide Kept, StillWanted;
    assert d.blobs.Keys - e.blobs.Keys == gone;
  }

  /** A live row naming these bytes, other than `but`. */
  ghost predicate NamedLive(d: Db, s: Sha, but: set<Id>) {
    exists id :: id in d.rows && id !in but && d.rows[id].sha == Some(s)
      && d.rows[id].removed.None? && d.rows[id].expired.None?
  }

  /** What a removal leaves: the row tombstoned without its bytes, the orphans gone,
      and of the blobs those that another live row names. */
  ghost predicate RemovedFrom(d: Db, e: Db, id: Id, now: int) {
    && e.banners == d.banners
    && (forall x :: x in e.rows <==> x in d.rows && Kept(d, x, now))
    && (id in e.rows ==> e.rows[id] == d.rows[id].(
          sha := None, removed := if d.rows[id].removed.Some? then d.rows[id].removed else Some(now)))
    && (forall x :: x in e.rows && x != id ==>
          && (e.rows[x] == d.rows[x] || e.rows[x] == d.rows[x].(sha := None))
          && (d.rows[x].removed.None? && d.rows[x].expired.None? ==> e.rows[x] == d.rows[x]))
    && (forall s :: s in e.blobs <==> s in d.blobs && NamedLive(e, s, {id}))
    && e.files == d.files - (d.blobs.Keys - e.blobs.Keys)
  }

  /** The blobs that stay are those a live row names. */
  lemma CleanedBlobs(d: Db, e: Db, now: int)
    requires CleanedUp(d, e, now)
    ensures forall s :: s in e.blobs <==> s in d.blobs && NamedLive(e, s, {})
  {
    hide Kept;
    forall s | s in d.blobs && NamedLive(e, s, {}) ensures StillWanted(d, s, now) {
      var id :| id in e.rows && e.rows[id].sha == Some(s) && e.rows[id].Live();
      assert d.rows[id].sha == Some(s) && d.rows[id].Live();
    }
    forall s: Sha | StillWanted(d, s, now) ensures NamedLive(e, s, {}) {
      var id :| id in d.rows && Kept(d, id, now) && d.rows[id].sha == Some(s) && d.rows[id].Live();
      assert id in e.rows;
    }
  }

  lemma MarkedRow(d: Db, id: Id, now: int)
    ensures var m := Exec(d, MarkRemoved(id, now));
            && m.rows.Keys == d.rows.Keys && m == d.(rows := m.rows)
            && (forall x :: x in d.rows ==> x in m.rows && (Kept(m, x, now) <==> Kept(d, x, now)))
            && (forall x :: x in d.rows && x != id ==> m.rows[x] == d.rows[x])
            && (id in d.rows ==> m.rows[id] == d.rows[id].(
                  sha := None, removed := if d.rows[id].removed.Some? then d.rows[id].removed else Some(now)))
  {
  }

  lemma NamedByOthers(e: Db, s: Sha, id: Id)
    requires id in e.rows ==> e.rows[id].sha.None?
    ensures NamedLive(e, s, {}) <==> NamedLive(e, s, {id})
  {
    if NamedLive(e, s, {}) {
      var x :| x in e.rows && e.rows[x].sha == Some(s) && e.rows[x].Live();
      assert x !in {id};
    }
  }

  lemma RemovalMeans(d: Db, id: Id, now: int)
    ensures RemovedFrom(d, Dropped(Exec(d, MarkRemoved(id, now)), now), id, now)
  {
    var m := Exec(d, MarkRemoved(id, now));
    var e := Dropped(m, now);
    MarkedRow(d, id, now);
    DroppedIsClean(m, now);
    CleanedBlobs(m, e, now);
    hide Dropped, Kept, StillWanted, NamedLive, Exec;
    forall s: Sha ensures NamedLive(e, s, {}) <==> NamedLive(e, s, {id}) {
      NamedByOthers(e, s, id);
    }
  }

  /** What a sweep leaves: live rows older than the retention expire unless they are
      some channel's banner, the orphans go, and of the blobs those stay that a
      live row names. */
  ghost predicate SweptTo(d: Db, e: Db, days: nat, now: int) {
    && e.banners == d.banners
    && (forall x :: x in e.rows <==> x in d.rows && Kept(d, x, now))
    && (forall x :: x in e.rows ==>
          var r, aged := e.rows[x], days > 0 && d.rows[x].created < now - days * 86_400;
          && r.(expired := d.rows[x].expired, sha := d.rows[x].sha) == d.rows[x]
          && r.expired == (if aged && d.rows[x].removed.None? && d.rows[x].expired.None? && !OnChannel(d, x) then Some(now)
                           else d.rows[x].expired)
          && (r.sha == d.rows[x].sha || r.sha.None?) && (r.Live() ==> r.sha == d.rows[x].sha))
    && (forall s :: s in e.blobs <==> s in d.blobs && NamedLive(e, s, {}))
    && e.files == d.files - (d.blobs.Keys - e.blobs.Keys)
  }

  ghost predicate OnChannel(d: Db, id: Id) {
    exists c :: c in d.banners && d.banners[c] == id
  }

  /** The row after the sweep's UPDATE. */
  ghost predicate Aged(d: Db, m: Db, x: Id, days: nat, now: int)
    requires x in d.rows && x in m.rows
  {
    var r := d.rows[x];
    var aged := days > 0 && r.created < now - days * 86_400;
    m.rows[x] == r.(expired := if aged && r.removed.None? && r.expired.None? && !OnChannel(d, x) then Some(now) else r.expired)
  }

  lemma AgedRows(d: Db, days: nat, now: int)
    ensures var m := if days > 0 then Exec(d, ExpireOld(now, now - days * SECS_PER_DAY)) else d;
            && m.rows.Keys == d.rows.Keys && m == d.(rows := m.rows)
            && forall x :: x in d.rows ==> x in m.rows && Aged(d, m, x, days, now) && (Kept(m, x, now) <==> Kept(d, x, now))
  {
    forall x | x in d.rows ensures Pinned(d, x) <==> OnChannel(d, x) {
    }
  }

  lemma SweepMeans(d: Db, days: nat, now: int)
    ensures var m := if days > 0 then Exec(d, ExpireOld(now, now - days * SECS_PER_DAY)) else d;
            SweptTo(d, Dropped(m, now), days, now)
  {
    var m := if days > 0 then Exec(d, ExpireOld(now, now - days * SECS_PER_DAY)) else d;
    var e := Dropped(m, now);
    AgedRows(d, days, now);
    hide Exec;
    DroppedIsClean(m, now);
    CleanedBlobs(m, e, now);
    hide Dropped, Kept, StillWanted, NamedLive, OnChannel;
  }

  /** Nothing came that was not there, and no blob changed. */
  predicate LeftOf(d: Db, e: Db) {
    && e.banners == d.banners && e.rows.Keys <= d.rows.Keys
    && (forall id :: id in e.rows ==> e.rows[id].sha == d.rows[id].sha || e.rows[id].sha.None?)
    && e.blobs.Keys <= d.blobs.Keys && (forall s :: s in e.blobs ==> e.blobs[s] == d.blobs[s])
  }

  /** A blob that must go before `t`, which a live row still wants, may. */
  ghost predicate GoesBefore(d: Db, s: Sha, t: Sha, now: int) {
    s in d.blobs && t in d.blobs && Older(d.blobs, s, t) && StillWanted(d, t, now) && !OnBanner(d, s)
  }

  /** Of the blobs still wanted none went while an older one that is no banner's is
      left; those in `but` may have come back since. */
  ghost predicate OldestWentBut(d: Db, e: Db, now: int, but: set<Sha>) {
    forall s, t :: GoesBefore(d, s, t, now) && t !in e.blobs && s !in but ==> s !in e.blobs
  }

  lemma BannersOf(d: Db, e: Db, s: Sha)
    requires LeftOf(d, e) && OnBanner(e, s)
    ensures OnBanner(d, s)
  {
  }

  lemma EvictionLeaves(d: Db, want: int, now: int)
    ensures LeftOf(d, EvictedFor(d, want, now))
  {
    OldestGo(d, want, now);
    hide EvictedFor;
  }

  lemma CleaningLeaves(d: Db, now: int)
    ensures LeftOf(d, Dropped(d, now))
  {
    DroppedIsClean(d, now);
    hide Dropped, Kept, StillWanted;
  }

  /** An eviction goes on where another stage left off. */
  lemma ThenOldest(d: Db, d1: Db, want: int, now: int)
    requires LeftOf(d, d1) && OldestWentBut(d, d1, now, {})
    ensures LeftOf(d, EvictedFor(d1, want, now)) && OldestWentBut(d, EvictedFor(d1, want, now), now, {})
  {
    var e := EvictedFor(d1, want, now);
    OldestGo(d1, want, now);
    EvictionLeaves(d1, want, now);
    hide EvictedFor, RestStays;
    forall s, t | GoesBefore(d, s, t, now) && t !in e.blobs ensures s !in e.blobs {
      if s in d1.blobs && t in d1.blobs {
        if OnBanner(d1, s) {
          BannersOf(d, d1, s);
        }
        assert Older(d1.blobs, s, t);
      }
    }
  }

  /** So it is when room is made: the oldest go first. */
  lemma RoomTakesOldest(d: Db, need: nat, cap: int, now: int)
    ensures LeftOf(d, RoomMade(d, need, cap, now)) && OldestWentBut(d, RoomMade(d, need, cap, now), now, {})
  {
    var d1 := Dropped(d, now);
    DroppedIsClean(d, now);
    CleaningLeaves(d, now);
    hide Dropped, Kept, StillWanted, EvictedFor, Used, LeftOf, OnBanner, Older;
    assert LeftOf(d, d) by { LeftOfItself(d); }
    if Used(d) + need > cap && Used(d1) + need > cap {
      ThenOldest(d, d1, Used(d1) + need - cap, now);
    }
  }

  lemma LeftOfItself(d: Db)
    ensures LeftOf(d, d)
  {
  }

  // ---- A link ------------------------------------------------------------------

  /** Of the other rows none changed, and the blobs of these rows, no others, were
      linked just now. */
  ghost predicate Relinked(d: Db, e: Db, ids: seq<Id>, now: int) {
    && e.files == d.files && e.banners == d.banners && e.rows.Keys == d.rows.Keys && e.blobs.Keys == d.blobs.Keys
    && (forall id :: id in d.rows ==> e.rows[id].sha == d.rows[id].sha && (id !in ids ==> e.rows[id] == d.rows[id]))
    && (forall s :: s in d.blobs ==>
          if exists id :: id in ids && id in d.rows && d.rows[id].sha == Some(s)
          then e.blobs[s] == d.blobs[s].(lastLinked := now) else e.blobs[s] == d.blobs[s])
  }

  lemma NamedByIs(rows: map<Id, Row>, rs: map<Id, Row>, ids: seq<Id>, s: Sha)
    requires rs.Keys == rows.Keys && forall id :: id in rows ==> rs[id].sha == rows[id].sha
    ensures NamedBy(rs, ids, s) <==> exists id :: id in ids && id in rows && rows[id].sha == Some(s)
  {
    if id :| id in ids && id in rows && rows[id].sha == Some(s) {
      var i :| 0 <= i < |ids| && ids[i] == id;
    }
  }

  lemma LinkedKeepsShas(rows: map<Id, Row>, rs: map<Id, Row>, o: Owner, owner: nat, ids: seq<Id>)
    requires LinkedAs(rows, rs, o, owner, ids)
    ensures rs.Keys == rows.Keys && forall id :: id in rows ==> rs[id].sha == rows[id].sha
  {
    forall id | id in rows && id in ids ensures rs[id].sha == rows[id].sha {
      var i :| 0 <= i < |ids| && ids[i] == id;
    }
  }

  lemma LinkRelinks(d: Db, o: Owner, owner: nat, ids: seq<Id>, now: int)
    requires LinkRows(d.rows, o, owner, ids).Some?
    ensures Relinked(d, Exec(d, LinkAll(o, owner, ids, now)), ids, now)
  {
    LinkRowsKeeps(d.rows, o, owner, ids);
    var rs := LinkRows(d.rows, o, owner, ids).value;
    LinkedKeepsShas(d.rows, rs, o, owner, ids);
    assert Exec(d, LinkAll(o, owner, ids, now)) == d.(rows := rs, blobs := LinkBlobs(d.blobs, rs, ids, now));
    hide LinkRows, Linkable, Exec;
    forall s: Sha
      ensures NamedBy(rs, ids, s) <==> exists id :: id in ids && id in d.rows && d.rows[id].sha == Some(s)
    {
      NamedByIs(d.rows, rs, ids, s);
    }
    hide NamedBy;
  }

  /** So what was just linked is evicted last: only once every blob linked before
      that is no banner's has gone. */
  lemma JustLinkedGoLast(d: Db, o: Owner, owner: nat, ids: seq<Id>, now: int, want: int, i: nat, s: Sha)
    requires LinkRows(d.rows, o, owner, ids).Some? && i < |ids|
    requires s in d.blobs && d.blobs[s].lastLinked < now && !OnBanner(d, s)
    requires forall j :: 0 <= j < |ids| && ids[j] in d.rows ==> d.rows[ids[j]].sha != Some(s)
    ensures ids[i] in d.rows
    ensures var e := Exec(d, LinkAll(o, owner, ids, now));
            var t := d.rows[ids[i]].sha;
            t.Some? && t.value in d.blobs && t.value !in EvictedFor(e, want, now).blobs ==>
              s !in EvictedFor(e, want, now).blobs
  {
    var e := Exec(d, LinkAll(o, owner, ids, now));
    LinkRelinks(d, o, owner, ids, now);
    LinkRowsKeeps(d.rows, o, owner, ids);
    assert Linkable(d.rows, ids[i]) && ids[i] in ids;
    OldestGo(e, want, now);
    hide Exec, EvictedFor, LinkRows, RestStays, Linkable, LinkedAs;
    var t := d.rows[ids[i]].sha;
    if t.Some? && t.value in d.blobs {
      RelinkedIsYounger(d, e, ids, now, s, t.value);
    }
  }

  lemma RelinkedIsYounger(d: Db, e: Db, ids: seq<Id>, now: int, s: Sha, t: Sha)
    requires Relinked(d, e, ids, now) && s in d.blobs && t in d.blobs && d.blobs[s].lastLinked < now
    requires forall id :: id in d.rows ==> e.rows[id].sha == d.rows[id].sha
    requires exists id :: id in ids && id in d.rows && d.rows[id].sha == Some(t)
    requires forall id :: id in ids && id in d.rows ==> d.rows[id].sha != Some(s)
    ensures Older(e.blobs, s, t) && (OnBanner(e, s) ==> OnBanner(d, s))
  {
  }

  // ---- The store ------------------------------------------------------------------

  datatype Upload = Upload(name: string, uploader: nat, channel: nat, content: Content, asFile: bool,
                           image: bool, mime: string, width: Option<nat>, height: Option<nat>)

  datatype WriteOutcome = Done | OutOfSpace | Failed

  datatype IngestResult = Stored(ref: Ref) | WriteError | StorageFull

  function BlobOf(up: Upload, now: int): Blob {
    AttachmentDb.Blob(up.image, up.mime, |up.content|, up.width, up.height, now)
  }

  function RowOf(up: Upload, s: Sha, now: int): Row {
    Row(Some(s), up.name, up.uploader, up.channel, up.asFile, now, None, None, None, 0, None, None)
  }

  function IngestOutcome(d: Db, s: Sha, up: Upload, id: Id, cap: int, now: int,
                         first: WriteOutcome, second: WriteOutcome): IngestResult {
    if (s in d.blobs && s in d.files) || first == Done || (first == OutOfSpace && second == Done) then
      Stored(IntoRef(id, RowOf(up, s, now), Some(BlobOf(up, now))))
    else if first == OutOfSpace then StorageFull
    else WriteError
  }

  /** The state `ingest` leaves: bytes already stored are not written again; for
      new bytes room is made first, and once more if the disk itself is full. */
  ghost function Ingested(d: Db, s: Sha, up: Upload, id: Id, cap: int, now: int,
                          first: WriteOutcome, second: WriteOutcome): Db {
    var room := RoomMade(d, |up.content|, cap, now);
    var more := EvictedFor(room, |up.content|, now);
    match IngestOutcome(d, s, up, id, cap, now, first, second)
    case WriteError => room
    case StorageFull => more
    case Stored(_) =>
      var placed := if s in d.blobs && s in d.files then d
                    else Exec(if first == Done then room else more, WriteFile(s, up.content));
      Exec(Exec(placed, UpsertBlob(s, BlobOf(up, now))), InsertRow(id, RowOf(up, s, now)))
  }

  lemma IngestTakesOldest(d: Db, s: Sha, up: Upload, id: Id, cap: int, now: int, first: WriteOutcome, second: WriteOutcome)
    ensures OldestWentBut(d, Ingested(d, s, up, id, cap, now, first, second), now, {s})
  {
    var room := RoomMade(d, |up.content|, cap, now);
    RoomTakesOldest(d, |up.content|, cap, now);
    hide RoomMade, OldestWentBut, EvictedFor, LeftOf;
    ThenOldest(d, room, |up.content|, now);
    var more := EvictedFor(room, |up.content|, now);
    assert OldestWentBut(d, d, now, {}) by { NothingWent(d, now); }
    var e := Ingested(d, s, up, id, cap, now, first, second);
    var stored := IngestOutcome(d, s, up, id, cap, now, first, second).Stored?;
    var from := if !stored then e else if s in d.blobs && s in d.files then d else if first == Done then room else more;
    FiledBlobs(from, s, BlobOf(up, now), id, RowOf(up, s, now), up.content);
    hide Exec, IngestOutcome, BlobOf, RowOf;
    assert e.blobs.Keys == if stored then from.blobs.Keys + {s} else from.blobs.Keys;
    SameBut(d, from, e, s, now);
  }

  /** The upload is there: a live row of its own, linked to nothing, and its bytes. */
  ghost predicate Filed(d: Db, s: Sha, up: Upload, id: Id, now: int) {
    && s in d.blobs && s in d.files && d.blobs[s].lastLinked == now
    && id in d.rows && d.rows[id].sha == Some(s) && d.rows[id].created == now
    && d.rows[id].name == up.name && d.rows[id].uploader == up.uploader && d.rows[id].channel == up.channel
    && d.rows[id].asFile == up.asFile && d.rows[id].removed.None? && d.rows[id].expired.None?
    && d.rows[id].message.None? && d.rows[id].post.None? && d.rows[id].reply.None?
  }

  lemma IngestedIsFiled(d: Db, s: Sha, up: Upload, id: Id, cap: int, now: int, first: WriteOutcome, second: WriteOutcome)
    ensures IngestOutcome(d, s, up, id, cap, now, first, second).Stored? ==>
              Filed(Ingested(d, s, up, id, cap, now, first, second), s, up, id, now)
  {
    hide RoomMade, EvictedFor;
  }

  lemma NothingWent(d: Db, now: int)
    ensures OldestWentBut(d, d, now, {})
  {
  }

  lemma FiledBlobs(r: Db, s: Sha, b: Blob, id: Id, row: Row, content: Content)
    ensures Exec(Exec(r, UpsertBlob(s, b)), InsertRow(id, row)).blobs.Keys == r.blobs.Keys + {s}
    ensures Exec(Exec(Exec(r, WriteFile(s, content)), UpsertBlob(s, b)), InsertRow(id, row)).blobs.Keys ==
            r.blobs.Keys + {s}
  {
    hide Upserted;
  }

  lemma SameBut(d: Db, from: Db, e: Db, s: Sha, now: int)
    requires OldestWentBut(d, from, now, {})
    requires e.blobs.Keys == from.blobs.Keys + {s} || e.blobs.Keys == from.blobs.Keys
    ensures OldestWentBut(d, e, now, {s})
  {
    forall x, t | GoesBefore(d, x, t, now) && t !in e.blobs && x !in {s} ensures x !in e.blobs {
      assert t !in from.blobs;
    }
  }

  /** Where the file of a new blob is written: room made, and made once more
      when the disk was full. */
  ghost function RoomFor(d: Db, need: nat, cap: int, now: int, first: WriteOutcome): Db {
    var room := RoomMade(d, need, cap, now);
    if first == Done then room else EvictedFor(room, need, now)
  }

  lemma RoomForIsRoom(d: Db, need: nat, cap: int, now: int, first: WriteOutcome)
    ensures var r := RoomFor(d, need, cap, now, first); Used(r) + need <= cap || Evictable(r) == {}
  {
    hide RoomMade, EvictedFor, Victims, EvictionOrder;
    var r := RoomMade(d, need, cap, now);
    RoomIsMade(d, need, cap, now);
    EvictionConserves(r, need, now);
    if Evictable(r) == {} {
      EvictingNothing(r, need, now);
    }
  }

  lemma EvictingNothing(d: Db, want: int, now: int)
    requires Evictable(d) == {}
    ensures EvictedFor(d, want, now) == d
  {
    OrderLength(EvictionOrder(d), {}, EvictionRanks(d.blobs));
    assert Victims(d, want) == [];
    NothingEvicted(d, now);
  }

  /** After an ingest that stores a new blob, all blobs fit the cap, or every
      other blob left belongs to a banner. */
  lemma IngestRespectsCap(d: Db, s: Sha, up: Upload, id: Id, cap: int, now: int,
                          first: WriteOutcome, second: WriteOutcome)
    requires IngestOutcome(d, s, up, id, cap, now, first, second).Stored?
    requires !(s in d.blobs && s in d.files) && id !in d.rows
    ensures var after := Ingested(d, s, up, id, cap, now, first, second);
            || Used(after) <= cap
            || forall t :: t in after.blobs && t != s ==> BannerBlob(after, t)
  {
    hide RoomMade, EvictedFor, Used;
    var need := |up.content|;
    var base := RoomFor(d, need, cap, now, first);
    RoomForIsRoom(d, need, cap, now, first);
    RoomAddsNoRows(d, need, cap, now);
    UpsertRespectsCap(base, s, BlobOf(up, now), cap);
    FilingKeepsCap(base, s, up, id, cap, now);
  }

  /** Bytes already stored are not stored again: no file, no budget and no other
      row changes, and the new upload shows them at once. */
  lemma DuplicateIsStoredOnce(d: Db, s: Sha, up: Upload, id: Id, cap: int, now: int,
                              first: WriteOutcome, second: WriteOutcome)
    requires s in d.blobs && s in d.files && id !in d.rows
    ensures var e := Ingested(d, s, up, id, cap, now, first, second);
            && e.files == d.files && e.blobs.Keys == d.blobs.Keys && Used(e) == Used(d)
            && (forall x :: x in d.rows ==> x in e.rows && e.rows[x] == d.rows[x])
            && e.blobs[s].lastLinked == now
            && id in e.rows && RefOf(e, id).state == Ok && RefOf(e, id).size == d.blobs[s].size
            && RefOf(e, id).inline == ((up.image || d.blobs[s].image) && !up.asFile)
            && RefOf(e, id).name == up.name && RefOf(e, id).mime == d.blobs[s].mime
            && RefOf(e, id).width == (if d.blobs[s].width.Some? then d.blobs[s].width else up.width)
            && RefOf(e, id).height == (if d.blobs[s].height.Some? then d.blobs[s].height else up.height)
  {
    var e := Ingested(d, s, up, id, cap, now, first, second);
    assert e.blobs.Keys == d.blobs.Keys;
    SizeSame(d.blobs, e.blobs, d.blobs.Keys);
  }

  lemma FilingKeepsCap(r: Db, s: Sha, up: Upload, id: Id, cap: int, now: int)
    requires id !in r.rows
    ensures var upserted := Exec(r, UpsertBlob(s, BlobOf(up, now)));
            var after := Exec(Exec(Exec(r, WriteFile(s, up.content)), UpsertBlob(s, BlobOf(up, now))),
                              InsertRow(id, RowOf(up, s, now)));
            && after.blobs == upserted.blobs
            && Used(after) == Used(upserted)
            && forall t :: BannerBlob(upserted, t) ==> BannerBlob(after, t)
  {
    hide SizeOf;
    var upserted := Exec(r, UpsertBlob(s, BlobOf(up, now)));
    var after := Exec(Exec(Exec(r, WriteFile(s, up.content)), UpsertBlob(s, BlobOf(up, now))),
                      InsertRow(id, RowOf(up, s, now)));
    assert forall x :: x in r.rows ==> after.rows[x] == r.rows[x];
  }

  lemma StoringKeepsBanners(d: Db, s: Sha, up: Upload, id: Id, now: int)
    ensures BannersKept(d, Exec(d, WriteFile(s, up.content)))
    ensures id !in d.rows ==>
              BannersKept(d, Exec(Exec(d, UpsertBlob(s, BlobOf(up, now))), InsertRow(id, RowOf(up, s, now))))
  {
  }

  lemma IngestedKeepsBanners(d: Db, s: Sha, up: Upload, id: Id, cap: int, now: int,
                             first: WriteOutcome, second: WriteOutcome)
    requires id !in d.rows
    ensures BannersKept(d, Ingested(d, s, up, id, cap, now, first, second))
  {
    hide Exec, RoomMade, EvictedFor;
    var size := |up.content|;
    var room := RoomMade(d, size, cap, now);
    var more := EvictedFor(room, size, now);
    RoomKeepsBanners(d, size, cap, now);
    EvictedKeepsBanners(room, size, now);
    RoomAddsNoRows(d, size, cap, now);
    var placed := if s in d.blobs && s in d.files then d
                  else Exec(if first == Done then room else more, WriteFile(s, up.content));
    StoringKeepsBanners(if first == Done then room else more, s, up, id, now);
    WriteKeepsRows(if first == Done then room else more, s, up.content);
    StoringKeepsBanners(placed, s, up, id, now);
  }

  lemma WriteKeepsRows(d: Db, s: Sha, content: Content)
    ensures Exec(d, WriteFile(s, content)).rows == d.rows
  {
  }

  lemma RoomAddsNoRows(d: Db, need: nat, cap: int, now: int)
    ensures RoomMade(d, need, cap, now).rows.Keys <= d.rows.Keys
    ensures EvictedFor(RoomMade(d, need, cap, now), need, now).rows.Keys <= d.rows.Keys
  {
  }

  /** Removing one row leaves the other live banners to the clean-up. */
  lemma RemovalKeepsBanners(d: Db, id: Id, now: int)
    ensures forall x :: LiveBanner(d, x) && x != id ==>
              LiveBanner(Exec(d, MarkRemoved(id, now)), x) && Exec(d, MarkRemoved(id, now)).rows[x] == d.rows[x]
  {
  }

  lemma RemovedShowsRemoved(d: Db, id: Id, now: int)
    ensures var e := Dropped(Exec(d, MarkRemoved(id, now)), now);
            id in e.rows ==> RefOf(e, id).state == Removed
  {
  }

  /** In an eviction from `d0` that has come to `d`: the first `i` of the order are
      gone, they came to `freed` bytes, and without the last it was not enough. */
  ghost predicate Evicting(d0: Db, d: Db, want: int, now: int, i: nat, freed: int) {
    var order := EvictionOrder(d0);
    && i <= |order|
    && d == Evicted(d0, Elements(order[..i]), now)
    && freed == TotalOf(d0.blobs, order[..i])
    && (i > 0 ==> TotalOf(d0.blobs, order[..i - 1]) < want)
  }

  lemma EvictionStarts(d0: Db, want: int, now: int)
    ensures Evicting(d0, d0, want, now, 0, 0)
  {
    NothingEvicted(d0, now);
    assert EvictionOrder(d0)[..0] == [];
  }

  /** The query asked again continues the same order. */
  lemma BatchContinues(d0: Db, d: Db, want: int, now: int, i: nat, freed: int)
    requires Evicting(d0, d, want, now, i, freed)
    ensures i <= |EvictionOrder(d0)|
    ensures NextBatch(d) <= EvictionOrder(d0)[i..] && Distinct(NextBatch(d))
    ensures NextBatch(d) == [] <==> i == |EvictionOrder(d0)|
  {
    RequeryIsSuffix(d0, i, now);
    BatchIsPrefix(d);
    hide Evicted, EvictionOrder, NextBatch, TotalOf, Elements, Distinct;
  }

  lemma BatchIsPrefix(d: Db)
    ensures NextBatch(d) <= EvictionOrder(d) && Distinct(NextBatch(d))
    ensures NextBatch(d) == [] <==> EvictionOrder(d) == []
  {
    OrderIsDistinct(EvictionOrder(d), Evictable(d), EvictionRanks(d.blobs));
    hide EvictionOrder;
  }

  lemma EvictionGoesOn(d0: Db, d: Db, want: int, now: int, i: nat, freed: int)
    requires Evicting(d0, d, want, now, i, freed) && i < |EvictionOrder(d0)| && freed < want
    ensures var s := EvictionOrder(d0)[i];
            var e := Exec(Exec(Exec(d, ExpireRowsOn(s, now)), DeleteBlob(s)), RemoveFile(s));
            s in d.blobs && Evicting(d0, e, want, now, i + 1, freed + d.blobs[s].size)
  {
    var order := EvictionOrder(d0);
    var s := order[i];
    OrderIsDistinct(order, Evictable(d0), EvictionRanks(d0.blobs));
    assert s !in order[..i];
    assert Elements(order[..i + 1]) == Elements(order[..i]) + {s};
    hide EvictionOrder, Elements, Exec, TotalOf;
    EvictedHas(d0, Elements(order[..i]), s, now);
    EvictStep(d0, Elements(order[..i]), s, now);
    hide Evicted;
    TotalSnoc(d0.blobs, order, i);
    assert TotalOf(d0.blobs, order[..i]) == freed < want;
    var e := Exec(Exec(Exec(d, ExpireRowsOn(s, now)), DeleteBlob(s)), RemoveFile(s));
    assert e == Evicted(d0, Elements(order[..i + 1]), now);
    EvictingOne(d0, e, want, now, i);
    hide *;
  }

  lemma EvictingOne(d0: Db, d: Db, want: int, now: int, i: nat)
    requires i < |EvictionOrder(d0)| && d == Evicted(d0, Elements(EvictionOrder(d0)[..i + 1]), now)
    requires TotalOf(d0.blobs, EvictionOrder(d0)[..i]) < want
    ensures Evicting(d0, d, want, now, i + 1, TotalOf(d0.blobs, EvictionOrder(d0)[..i + 1]))
  {
    hide Evicted, EvictionOrder, Elements, TotalOf;
  }

  lemma EvictedHas(d: Db, gone: set<Sha>, s: Sha, now: int)
    requires s in d.blobs && s !in gone
    ensures s in Evicted(d, gone, now).blobs && Evicted(d, gone, now).blobs[s] == d.blobs[s]
  {
  }

  /** Stopped by `want` or by an empty answer, it has done what it should. */
  lemma EvictionEnds(d0: Db, d: Db, want: int, now: int, i: nat, freed: int)
    requires Evicting(d0, d, want, now, i, freed) && (freed >= want || NextBatch(d) == [])
    ensures d == EvictedFor(d0, want, now) && i == |Victims(d0, want)| && freed >= 0
    ensures Used(d0) == freed + Used(d)
  {
    var order := EvictionOrder(d0);
    BatchContinues(d0, d, want, now, i, freed);
    hide EvictionOrder, Evicted, NextBatch;
    assert Enough(d0.blobs, order, want, i);
    EnoughIsUnique(d0.blobs, order, want, i, |Victims(d0, want)|);
    assert order[..i] == Victims(d0, want);
    EvictionConserves(d0, want, now);
  }

  class Store {
    var rows: map<Id, Row>
    var blobs: map<Sha, Blob>
    var files: map<Sha, Content>
    var banners: map<nat, Id>
    var evictions: nat
    const hash: Content -> Sha
    ghost var phase: Phase
    ghost var batch: set<Sha>
    ghost var spent: set<Id>

    constructor (hash: Content -> Sha)
      ensures Valid() && AtRest() && evictions == 0
      ensures View() == Db(map[], map[], map[], map[]) && this.hash == hash
    {
      rows, blobs, files, banners := map[], map[], map[], map[];
      evictions, phase, batch, spent := 0, Idle, {}, {};
      this.hash := hash;
    }

    function View(): Db
      reads this
    {
      Db(rows, blobs, files, banners)
    }

    ghost function At(): Machine
      reads this
    {
      Machine(View(), phase, batch, spent)
    }

    ghost predicate Valid()
      reads this
    {
      Inv(hash, At())
    }

    /** No operation holds the lock. */
    ghost predicate AtRest()
      reads this
    {
      phase == Idle && batch == {}
    }

    /** Runs one statement. Its precondition is the lock discipline, so every
        operation below is a lawful run of the machine. */
    method Execute(st: Stmt)
      requires Valid() && Allowed(hash, At(), st)
      modifies this
      ensures Valid() && At() == Next(old(At()), st)
      ensures evictions == old(evictions)
    {
      NextKeepsInv(hash, At(), st);
      phase, batch, spent :=
        NextPhase(At(), st), BatchAfter(At(), st), if st.InsertRow? then spent + {st.id} else spent;
      var d := Exec(View(), st);
      rows, blobs, files, banners := d.rows, d.blobs, d.files, d.banners;
    }

    method UsedBytes() returns (used: nat)
      ensures used == Used(View())
    {
      used := SumOver(blobs.Keys);
    }

    method SumOver(ss: set<Sha>) returns (total: nat)
      requires ss <= blobs.Keys
      ensures total == SizeOf(blobs, ss)
    {
      total := 0;
      var left := ss;
      while left != {}
        invariant left <= ss
        invariant total + SizeOf(blobs, left) == SizeOf(blobs, ss)
        decreases |left|
      {
        var s :| s in left;
        SizeWithout(blobs, left, s);
        total := total + blobs[s].size;
        left := left - {s};
      }
    }

    method DropUnused(now: int) returns (freed: nat)
      requires Valid() && AtRest()
      modifies this
      ensures Valid() && AtRest() && spent == old(spent)
      ensures View() == Dropped(old(View()), now)
      ensures CleanedUp(old(View()), View(), now)
      ensures Used(old(View())) == freed + Used(View())
      ensures BannersKept(old(View()), View())
      ensures evictions == old(evictions)
    {
      ghost var d0 := View();
      DroppedIsClean(d0, now);
      hide Inv, BannersKept, Unwanted, SizeOf, CleanedUp;
      Execute(DeleteOrphans(now - ORPHAN_AFTER_SECS));
      ghost var d1 := View();
      var gone := Unwanted(View());
      freed := SumOver(gone);
      UsedAfterDrop(d1, gone);
      Execute(DeleteUnwanted);
      RemoveFiles(gone);
      DroppedKeepsBanners(d0, now);
    }

    method RemoveFiles(gone: set<Sha>)
      requires Valid() && phase == Clearing(gone)
      modifies this
      ensures Valid() && phase == Idle && batch == old(batch) && spent == old(spent) && evictions == old(evictions)
      ensures View() == old(View()).(files := old(files) - gone)
    {
      hide Inv;
      var left := gone;
      while left != {}
        invariant left <= gone
        invariant Valid() && phase == Clearing(left) && batch == old(batch) && spent == old(spent) && evictions == old(evictions)
        invariant View() == old(View()).(files := old(files) - (gone - left))
        decreases |left|
      {
        var s :| s in left;
        Execute(RemoveFile(s));
        assert old(files) - (gone - left) - {s} == old(files) - (gone - (left - {s}));
        left := left - {s};
      }
      assert gone - left == gone;
    }

    method EvictOldest(want: int, now: int) returns (freed: nat)
      requires Valid() && AtRest()
      modifies this
      ensures Valid() && AtRest() && spent == old(spent)
      ensures View() == EvictedFor(old(View()), want, now)
      ensures OldestWent(old(View()), View()) && JustEnough(old(View()), View(), want, freed)
      ensures RestStays(old(View()), View(), now)
      ensures Used(old(View())) == freed + Used(View())
      ensures evictions == old(evictions) + |Victims(old(View()), want)|
      ensures BannersKept(old(View()), View())
    {
      ghost var d0 := View();
      ghost var order := EvictionOrder(d0);
      ghost var i := 0;
      freed := 0;
      EvictionStarts(d0, want, now);
      OldestGo(d0, want, now);
      NoMoreThanNeeded(d0, want, now);
      hide Inv, BannersKept, Evicted, EvictedFor, EvictionOrder, NextBatch, Evicting, Used, Victims;
      hide OldestWent, JustEnough, RestStays;
      while freed < want
        invariant Valid() && phase == Idle && spent == old(spent)
        invariant order == EvictionOrder(d0) && Evicting(d0, View(), want, now, i, freed)
        invariant evictions == old(evictions) + i
        decreases |order| - i
      {
        BatchContinues(d0, View(), want, now, i, freed);
        var ss := QueryForBatch();
        if ss == [] {
          break;
        }
        i, freed := EvictBatch(ss, want, now, freed, d0, i);
      }
      EvictionEnds(d0, View(), want, now, i, freed);
      EvictionConserves(d0, want, now);
      EndEvicting();
      EvictedKeepsBanners(d0, want, now);
    }

    method QueryForBatch() returns (ss: seq<Sha>)
      requires Valid() && phase == Idle
      modifies this
      ensures Valid() && phase == Idle && View() == old(View()) && spent == old(spent) && evictions == old(evictions)
      ensures ss == NextBatch(View()) && forall k :: 0 <= k < |ss| ==> ss[k] in batch
    {
      hide Inv, NextBatch;
      ss := NextBatch(View());
      Execute(QueryBatch);
    }

    method EndEvicting()
      requires Valid() && phase == Idle
      modifies this
      ensures Valid() && AtRest() && View() == old(View()) && spent == old(spent) && evictions == old(evictions)
    {
      hide Inv;
      Execute(EndEviction);
    }

    /** The inner loop of the eviction, over one batch of the query's answer. */
    method EvictBatch(ss: seq<Sha>, want: int, now: int, sofar: int, ghost d0: Db, ghost i0: nat)
      returns (ghost i: nat, freed: int)
      requires Valid() && phase == Idle && Evicting(d0, View(), want, now, i0, sofar)
      requires Distinct(ss) && forall k :: 0 <= k < |ss| ==> ss[k] in batch
      requires sofar < want && ss != [] && i0 <= |EvictionOrder(d0)| && ss <= EvictionOrder(d0)[i0..]
      modifies this
      ensures Valid() && phase == Idle && spent == old(spent)
      ensures i0 < i <= |EvictionOrder(d0)| && Evicting(d0, View(), want, now, i, freed)
      ensures evictions == old(evictions) + (i - i0)
    {
      hide Inv, Evicted, EvictionOrder, Evicting;
      i, freed := i0, sofar;
      var j := 0;
      while j < |ss|
        invariant j <= |ss| && i == i0 + j <= |EvictionOrder(d0)| && (j < |ss| ==> freed < want)
        invariant Valid() && phase == Idle && spent == old(spent)
        invariant Evicting(d0, View(), want, now, i, freed)
        invariant forall k :: j <= k < |ss| ==> ss[k] in batch
        invariant evictions == old(evictions) + j
      {
        var s := ss[j];
        assert s == EvictionOrder(d0)[i0..][j] == EvictionOrder(d0)[i];
        var size := EvictOne(s, now, want, d0, i, freed);
        evictions := evictions + 1;
        freed := freed + size;
        i, j := i + 1, j + 1;
        if freed >= want {
          break;
        }
      }
    }

    /** One pass of the inner loop: expire the rows, delete the blob row, remove
        the file. The ghost arguments place it in the eviction order. */
    method EvictOne(s: Sha, now: int, ghost want: int, ghost d0: Db, ghost i: nat, ghost freed: int) returns (size: nat)
      requires Valid() && phase == Idle && s in batch
      requires i < |EvictionOrder(d0)| && s == EvictionOrder(d0)[i]
      requires Evicting(d0, View(), want, now, i, freed) && freed < want
      modifies this
      ensures Valid() && phase == Idle && batch == old(batch) - {s} && spent == old(spent) && evictions == old(evictions)
      ensures Evicting(d0, View(), want, now, i + 1, freed + size)
    {
      EvictionGoesOn(d0, View(), want, now, i, freed);
      hide Inv, Exec, Evicting, EvictionOrder;
      size := blobs[s].size;
      Execute(ExpireRowsOn(s, now));
      Execute(DeleteBlob(s));
      Execute(RemoveFile(s));
    }

    method EnsureRoom(need: nat, cap: int, now: int)
      requires Valid() && AtRest()
      modifies this
      ensures Valid() && AtRest() && spent == old(spent)
      ensures View() == RoomMade(old(View()), need, cap, now)
      ensures OldestWentBut(old(View()), View(), now, {})
      ensures BannersKept(old(View()), View())
    {
      RoomKeepsBanners(View(), need, cap, now);
      RoomTakesOldest(View(), need, cap, now);
      hide Inv, BannersKept, Dropped, EvictedFor, Used, OldestWentBut, LeftOf;
      var used := UsedBytes();
      var over := used + need - cap;
      if over <= 0 {
        return;
      }
      var freed := DropUnused(now);
      over := over - freed;
      if over > 0 {
        var _ := EvictOldest(over, now);
      }
    }

    /** `first` and `second` are how the write of the file and its one retry end. */
    method Ingest(up: Upload, id: Id, cap: int, now: int, first: WriteOutcome, second: WriteOutcome)
      returns (r: IngestResult)
      requires Valid() && AtRest() && id !in spent
      modifies this
      ensures Valid() && AtRest()
      ensures r == IngestOutcome(old(View()), hash(up.content), up, id, cap, now, first, second)
      ensures View() == Ingested(old(View()), hash(up.content), up, id, cap, now, first, second)
      ensures OldestWentBut(old(View()), View(), now, {hash(up.content)})
      ensures r.Stored? ==> Filed(View(), hash(up.content), up, id, now)
      ensures BannersKept(old(View()), View())
    {
      assert id !in rows;
      hide Inv, Exec, RoomMade, EvictedFor, BannersKept, OldestWentBut;
      ghost var d0 := View();
      var s := hash(up.content);
      IngestTakesOldest(d0, s, up, id, cap, now, first, second);
      IngestedIsFiled(d0, s, up, id, cap, now, first, second);
      IngestedKeepsBanners(d0, s, up, id, cap, now, first, second);
      var size := |up.content|;
      var held := s in blobs;
      var onDisk := held && s in files;
      if !onDisk {
        EnsureRoom(size, cap, now);
        if first == Done {
          Execute(WriteFile(s, up.content));
        } else {
          if first != OutOfSpace {
            return WriteError;
          }
          var _ := EvictOldest(size, now);
          if second != Done {
            return StorageFull;
          }
          Execute(WriteFile(s, up.content));
        }
      }
      File(up, s, id, now);
      r := Stored(IntoRef(id, RowOf(up, s, now), Some(BlobOf(up, now))));
    }

    /** The blob row and the upload row of a file that is in place. */
    method File(up: Upload, s: Sha, id: Id, now: int)
      requires Valid() && id !in spent && (phase == Written(s) || (AtRest() && s in blobs && s in files))
      modifies this
      ensures Valid() && AtRest()
      ensures View() == Exec(Exec(old(View()), UpsertBlob(s, BlobOf(up, now))), InsertRow(id, RowOf(up, s, now)))
    {
      hide Inv, Exec;
      Execute(UpsertBlob(s, BlobOf(up, now)));
      Execute(InsertRow(id, RowOf(up, s, now)));
    }

    method Remove(id: Id, now: int)
      requires Valid() && AtRest()
      modifies this
      ensures Valid() && AtRest() && evictions == old(evictions)
      ensures View() == Dropped(Exec(old(View()), MarkRemoved(id, now)), now)
      ensures RemovedFrom(old(View()), View(), id, now)
      ensures forall x :: LiveBanner(old(View()), x) && x != id ==> x in rows && rows[x] == old(rows)[x]
      ensures id in rows ==> RefOf(View(), id).state == Removed
    {
      ghost var d0 := View();
      RemovalKeepsBanners(d0, id, now);
      RemovedShowsRemoved(d0, id, now);
      RemovalMeans(d0, id, now);
      hide Inv, Exec, Dropped, LiveBanner, RemovedFrom, CleanedUp;
      Execute(MarkRemoved(id, now));
      var _ := DropUnused(now);
    }

    method Sweep(days: nat, now: int)
      requires Valid() && AtRest()
      modifies this
      ensures Valid() && AtRest() && evictions == old(evictions)
      ensures View() == Dropped(
                if days > 0 then Exec(old(View()), ExpireOld(now, now - days * SECS_PER_DAY)) else old(View()), now)
      ensures SweptTo(old(View()), View(), days, now)
      ensures BannersKept(old(View()), View())
    {
      ghost var d0 := View();
      SweepMeans(d0, days, now);
      hide SweptTo, CleanedUp;
      if days > 0 {
        Execute(ExpireOld(now, now - days * SECS_PER_DAY));
      }
      assert forall x :: LiveBanner(d0, x) ==> LiveBanner(View(), x) && rows[x] == d0.rows[x];
      var _ := DropUnused(now);
    }

    /** Takes no lock, so it may run in any phase. */
    method LinkIds(o: Owner, owner: nat, ids: seq<Id>, now: int) returns (ok: bool)
      requires Valid()
      modifies this
      ensures Valid() && phase == old(phase) && batch == old(batch) && evictions == old(evictions)
      ensures ok <==> Distinct(ids) && forall i :: 0 <= i < |ids| ==> Linkable(old(rows), ids[i])
      ensures !ok ==> View() == old(View())
      ensures ok ==> forall i :: 0 <= i < |ids| ==> ids[i] in rows && rows[ids[i]] == old(rows)[ids[i]].WithOwner(o, owner, i)
      ensures ok ==> Relinked(old(View()), View(), ids, now)
      ensures ok && RowsOf(old(View()), o, owner) == {} ==> Carries(View(), o, owner, ids)
    {
      ghost var d0 := View();
      LinkSucceedsIff(rows, o, owner, ids);
      var linked := TryLink(o, owner, ids);
      if linked.None? {
        return false;
      }
      LinkRowsKeeps(rows, o, owner, ids);
      LinkRelinks(d0, o, owner, ids, now);
      if RowsOf(d0, o, owner) == {} {
        LinkCarries(d0, o, owner, ids, now);
      }
      hide Inv, Carries, RowsOf, Linkable, LinkRows, Relinked;
      Execute(LinkAll(o, owner, ids, now));
      ok := true;
    }

    /** The UPDATEs of the transaction, one by one, until one affects no row. */
    method TryLink(o: Owner, owner: nat, ids: seq<Id>) returns (linked: Option<map<Id, Row>>)
      ensures linked == LinkRows(rows, o, owner, ids)
    {
      var updated := rows;
      var k := 0;
      while k < |ids|
        invariant k <= |ids|
        invariant LinkRows(rows, o, owner, ids[..k]) == Some(updated)
      {
        assert ids[..k + 1][..k] == ids[..k];
        if !Linkable(updated, ids[k]) {
          PrefixFails(rows, o, owner, ids, k + 1);
          return None;
        }
        updated := updated[ids[k] := updated[ids[k]].WithOwner(o, owner, k)];
        k := k + 1;
      }
      assert ids[..k] == ids;
      linked := Some(updated);
    }
  }

  lemma NothingEvicted(d: Db, now: int)
    ensures Evicted(d, {}, now) == d
    ensures Elements([]) == {}
  {
    assert Evicted(d, {}, now).rows == d.rows;
    assert d.blobs - {} == d.blobs && d.files - {} == d.files;
  }

  lemma {:induction false} PrefixFails(rows: map<Id, Row>, o: Owner, owner: nat, ids: seq<Id>, k: nat)
    requires k <= |ids| && LinkRows(rows, o, owner, ids[..k]).None?
    ensures LinkRows(rows, o, owner, ids).None?
    decreases |ids| - k
  {
    if k == |ids| {
      assert ids[..k] == ids;
    } else {
      assert ids[..k + 1][..k] == ids[..k];
      PrefixFails(rows, o, owner, ids, k + 1);
    }
  }
}
