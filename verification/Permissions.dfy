/** Channel permissions: overwrites folded along the ancestor chain, resolved
    per channel and for all channels at once. */
module Permissions {
  import opened Bytes

  /** Ids are only ever compared. */
  type Chan = nat
  type Role = nat
  type Perm = nat
  type User = nat

  const HOP_CAP: nat := 64
  const OWNER_ROLE: Role := 0

  /** A row of `channel_permission_overwrites`; no row means inherit. */
  datatype Overwrite = Overwrite(channel: Chan, role: Role, perm: Perm, allow: bool)

  // ---- The ancestor chain -----------------------------------------------------

  /** `channels`: the ids in the table with their parents. */
  type Parents = map<Chan, Option<Chan>>

  function ParentOf(parents: Parents, c: Chan): Option<Chan> {
    if c in parents then parents[c] else None
  }

  /** The chain from the root down to `c`, climbing at most `hops` times. */
  function Climb(parents: Parents, c: Chan, hops: nat): (chain: seq<Chan>)
    ensures 1 <= |chain| <= hops + 1 && chain[|chain| - 1] == c
    decreases hops
  {
    if hops == 0 || ParentOf(parents, c).None? then [c]
    else Climb(parents, ParentOf(parents, c).value, hops - 1) + [c]
  }

  function Chain(parents: Parents, c: Chan): seq<Chan> {
    Climb(parents, c, HOP_CAP)
  }

  function Reversed(s: seq<Chan>): (r: seq<Chan>)
    ensures |r| == |s|
  {
    seq(|s|, i requires 0 <= i < |s| => s[|s| - 1 - i])
  }

  /** Both walks of the source, the one query by query and the one over the
      loaded table, push each parent and reverse at the end. */
  method AncestorChain(parents: Parents, c: Chan) returns (chain: seq<Chan>)
    ensures chain == Chain(parents, c)
    ensures 1 <= |chain| <= 65 && chain[|chain| - 1] == c
    ensures forall i :: 1 <= i < |chain| ==> chain[i] in parents && parents[chain[i]] == Some(chain[i - 1])
    ensures |chain| == 65 || chain[0] !in parents || parents[chain[0]] == None
  {
    ClimbMeans(parents, c, HOP_CAP);
    chain := [c];
    var current := c;
    var hops := 0;
    assert Climb(parents, c, HOP_CAP) + Reversed([c])[1..] == Chain(parents, c);
    hide Climb, Chain, Reversed, ParentOf;
    while hops < HOP_CAP
      invariant hops <= HOP_CAP && chain != [] && current == chain[|chain| - 1]
      invariant Climb(parents, current, HOP_CAP - hops) + Reversed(chain)[1..] == Chain(parents, c)
    {
      match ParentOf(parents, current) {
        case None => break;
        case Some(p) =>
          OneHop(parents, chain, p, HOP_CAP - hops);
          chain := chain + [p];
          current := p;
      }
      hops := hops + 1;
    }
    WalkEnds(parents, chain, HOP_CAP - hops);
    chain := Reversed(chain);
  }

  /** One hop moves the channel just left from the part still to climb to the part
      walked. */
  lemma OneHop(parents: Parents, chain: seq<Chan>, p: Chan, hops: nat)
    requires chain != [] && hops > 0 && ParentOf(parents, chain[|chain| - 1]) == Some(p)
    ensures Climb(parents, chain[|chain| - 1], hops) + Reversed(chain)[1..] ==
            Climb(parents, p, hops - 1) + Reversed(chain + [p])[1..]
  {
    var c, up := chain[|chain| - 1], Climb(parents, p, hops - 1);
    assert Climb(parents, c, hops) == up + [c];
    assert Reversed(chain + [p])[1..] == Reversed(chain);
    assert Reversed(chain) == [c] + Reversed(chain)[1..];
    hide Climb, Reversed, ParentOf;
    assert up + [c] + Reversed(chain)[1..] == up + ([c] + Reversed(chain)[1..]);
  }

  lemma WalkEnds(parents: Parents, chain: seq<Chan>, hops: nat)
    requires chain != [] && (hops == 0 || ParentOf(parents, chain[|chain| - 1]).None?)
    ensures Climb(parents, chain[|chain| - 1], hops) + Reversed(chain)[1..] == Reversed(chain)
  {
    var c := chain[|chain| - 1];
    assert Climb(parents, c, hops) == [c];
    assert Reversed(chain) == [c] + Reversed(chain)[1..];
  }

  /** The chain ends at the channel, each link is a parent of the next, and it starts
      at a channel without a parent unless 64 hops did not reach one. */
  lemma {:induction false} ClimbMeans(parents: Parents, c: Chan, hops: nat)
    ensures var chain := Climb(parents, c, hops);
            && chain[|chain| - 1] == c
            && (forall i :: 1 <= i < |chain| ==> chain[i] in parents && parents[chain[i]] == Some(chain[i - 1]))
            && (|chain| == hops + 1 || chain[0] !in parents || parents[chain[0]] == None)
    decreases hops
  {
    if hops > 0 && ParentOf(parents, c).Some? {
      ClimbMeans(parents, ParentOf(parents, c).value, hops - 1);
    }
  }

  // ---- One level, and the fold ---------------------------------------------------

  ghost predicate Allows(rows: set<Overwrite>, c: Chan, p: Perm) {
    exists o :: o in rows && o.channel == c && o.perm == p && o.allow
  }

  ghost predicate Denies(rows: set<Overwrite>, c: Chan, p: Perm) {
    exists o :: o in rows && o.channel == c && o.perm == p && !o.allow
  }

  /** The level at `c` has a say about `p`. */
  ghost predicate Speaks(rows: set<Overwrite>, c: Chan, p: Perm) {
    Allows(rows, c, p) || Denies(rows, c, p)
  }

  /** The deepest level of the chain with any row for `p` decides, allow beating
      deny there; without one, the baseline does. */
  ghost predicate Granted(baseline: set<Perm>, chain: seq<Chan>, rows: set<Overwrite>, p: Perm)
    decreases |chain|
  {
    if chain == [] then p in baseline
    else if Speaks(rows, chain[|chain| - 1], p) then Allows(rows, chain[|chain| - 1], p)
    else Granted(baseline, chain[..|chain| - 1], rows, p)
  }

  function RowSet(rows: seq<Overwrite>): set<Overwrite> {
    set o | o in rows
  }

  method FoldOverwrites(baseline: set<Perm>, chain: seq<Chan>, rows: seq<Overwrite>) returns (effective: set<Perm>)
    ensures forall p :: p in effective <==> Granted(baseline, chain, RowSet(rows), p)
  {
    effective := baseline;
    ghost var all := RowSet(rows);
    var i := 0;
    while i < |chain|
      invariant i <= |chain|
      invariant forall p :: p in effective <==> Granted(baseline, chain[..i], all, p)
    {
      var c := chain[i];
      assert chain[..i + 1][..i] == chain[..i];
      var allow: set<Perm>, deny: set<Perm> := {}, {};
      var j := 0;
      while j < |rows|
        invariant j <= |rows|
        invariant forall p :: p in allow <==> Allows(RowSet(rows[..j]), c, p)
        invariant forall p :: p in deny <==> Denies(RowSet(rows[..j]), c, p)
      {
        RowSetPush(rows, j, c);
        if rows[j].channel == c {
          if rows[j].allow {
            allow := allow + {rows[j].perm};
          } else {
            deny := deny + {rows[j].perm};
          }
        }
        j := j + 1;
      }
      assert rows[..j] == rows;
      ghost var before := effective;
      var todo := deny;
      while todo != {}
        invariant todo <= deny
        invariant forall p :: p in effective <==> p in before && !(p in deny - todo && p !in allow)
        decreases |todo|
      {
        var p :| p in todo;
        if p !in allow {
          effective := effective - {p};
        }
        todo := todo - {p};
      }
      effective := effective + allow;
      i := i + 1;
    }
    assert chain[..i] == chain;
  }

  lemma RowSetPush(rows: seq<Overwrite>, j: nat, c: Chan)
    requires j < |rows|
    ensures RowSet(rows[..j + 1]) == RowSet(rows[..j]) + {rows[j]}
    ensures forall p :: Allows(RowSet(rows[..j + 1]), c, p) <==>
              Allows(RowSet(rows[..j]), c, p) || (rows[j].channel == c && rows[j].perm == p && rows[j].allow)
    ensures forall p :: Denies(RowSet(rows[..j + 1]), c, p) <==>
              Denies(RowSet(rows[..j]), c, p) || (rows[j].channel == c && rows[j].perm == p && !rows[j].allow)
  {
    var before, after, o := RowSet(rows[..j]), RowSet(rows[..j + 1]), rows[j];
    assert rows[..j + 1] == rows[..j] + [o];
    assert after == before + {o} && o in after;
    hide RowSet;
    forall p ensures Allows(after, c, p) <==> Allows(before, c, p) || (o.channel == c && o.perm == p && o.allow) {
      if x :| x in before && x.channel == c && x.perm == p && x.allow {
        assert x in after;
      }
    }
    forall p ensures Denies(after, c, p) <==> Denies(before, c, p) || (o.channel == c && o.perm == p && !o.allow) {
      if x :| x in before && x.channel == c && x.perm == p && !x.allow {
        assert x in after;
      }
    }
  }

  /** What the fold means: the deepest level that speaks decides. */
  lemma {:induction false} DeepestDecides(baseline: set<Perm>, chain: seq<Chan>, rows: set<Overwrite>, p: Perm, k: nat)
    requires k <= |chain| && forall j :: k <= j < |chain| ==> !Speaks(rows, chain[j], p)
    requires k == 0 || Speaks(rows, chain[k - 1], p)
    ensures Granted(baseline, chain, rows, p) <==> if k == 0 then p in baseline else Allows(rows, chain[k - 1], p)
    decreases |chain|
  {
    if k < |chain| {
      var up := chain[..|chain| - 1];
      assert !Speaks(rows, chain[|chain| - 1], p);
      assert forall j :: 0 <= j < |up| ==> up[j] == chain[j];
      DeepestDecides(baseline, up, rows, p, k);
    }
  }

  /** Only the rows on the chain matter. */
  lemma {:induction false} OnlyChainRowsMatter(
      baseline: set<Perm>, chain: seq<Chan>, a: set<Overwrite>, b: set<Overwrite>, p: Perm)
    requires forall o: Overwrite :: o.channel in chain ==> (o in a <==> o in b)
    ensures Granted(baseline, chain, a, p) <==> Granted(baseline, chain, b, p)
    decreases |chain|
  {
    if chain != [] {
      var c := chain[|chain| - 1];
      assert Allows(a, c, p) <==> Allows(b, c, p);
      assert Denies(a, c, p) <==> Denies(b, c, p);
      OnlyChainRowsMatter(baseline, chain[..|chain| - 1], a, b, p);
    }
  }

  // ---- A child against its parent ----------------------------------------------------

  lemma {:induction false} ClimbSettles(parents: Parents, c: Chan, hops: nat)
    ensures Climb(parents, c, hops) == Climb(parents, c, hops + 1) <==> |Climb(parents, c, hops + 1)| <= hops + 1
    decreases hops
  {
    var up := ParentOf(parents, c);
    if up.Some? {
      if hops > 0 {
        ClimbSettles(parents, up.value, hops - 1);
        var a, b := Climb(parents, up.value, hops - 1), Climb(parents, up.value, hops);
        assert (a + [c])[..|a|] == a && (b + [c])[..|b|] == b;
      } else {
        assert |Climb(parents, up.value, 0)| == 1;
        assert |Climb(parents, c, 1)| == 2;
      }
    }
  }

  /** A child's chain is its parent's chain and itself exactly when the parent's
      walk reached its root within the cap. */
  lemma ChildChainIff(parents: Parents, c: Chan)
    requires ParentOf(parents, c).Some?
    ensures var p := ParentOf(parents, c).value;
            Chain(parents, c) == Chain(parents, p) + [c] <==> |Chain(parents, p)| <= HOP_CAP
  {
    var p := ParentOf(parents, c).value;
    ClimbSettles(parents, p, HOP_CAP - 1);
    var a, b := Climb(parents, p, HOP_CAP - 1), Climb(parents, p, HOP_CAP);
    assert (a + [c])[..|a|] == a && (b + [c])[..|b|] == b;
  }

  /** The child's answer is one level applied to its parent's. */
  ghost predicate OneLevel(parents: Parents, c: Chan, baseline: set<Perm>, rows: set<Overwrite>, p: Perm)
    requires ParentOf(parents, c).Some?
  {
    Granted(baseline, Chain(parents, c), rows, p) <==>
    if Speaks(rows, c, p) then Allows(rows, c, p)
    else Granted(baseline, Chain(parents, ParentOf(parents, c).value), rows, p)
  }

  lemma ChildIsOneLevel(parents: Parents, c: Chan, baseline: set<Perm>, rows: set<Overwrite>, p: Perm)
    requires ParentOf(parents, c).Some? && |Chain(parents, ParentOf(parents, c).value)| <= HOP_CAP
    ensures OneLevel(parents, c, baseline, rows, p)
  {
    var up := Chain(parents, ParentOf(parents, c).value);
    ChildChainIff(parents, c);
    assert (up + [c])[..|up|] == up;
  }

  /** A walk cut off by the cap loses the top of the longer walk. */
  lemma {:induction false} ClimbDropsTop(parents: Parents, c: Chan, hops: nat)
    requires |Climb(parents, c, hops + 1)| == hops + 2
    ensures Climb(parents, c, hops) == Climb(parents, c, hops + 1)[1..]
    decreases hops
  {
    var up := ParentOf(parents, c).value;
    if hops > 0 {
      ClimbDropsTop(parents, up, hops - 1);
    } else {
      assert |Climb(parents, up, 0)| == 1;
    }
  }

  /** A level on top changes nothing when it is silent or comes again further down. */
  lemma {:induction false} TopLevelIsIdle(
      baseline: set<Perm>, top: Chan, chain: seq<Chan>, rows: set<Overwrite>, p: Perm)
    requires top in chain || !Speaks(rows, top, p)
    ensures Granted(baseline, [top] + chain, rows, p) <==> Granted(baseline, chain, rows, p)
    decreases |chain|
  {
    var all, k := [top] + chain, |chain| - 1;
    if chain == [] {
      assert all[..0] == [];
    } else {
      assert all[..|all| - 1] == [top] + chain[..k];
      if !Speaks(rows, chain[k], p) {
        assert top in chain ==> top in chain[..k] || top == chain[k];
        TopLevelIsIdle(baseline, top, chain[..k], rows, p);
      }
    }
  }

  /** A single allowing row grants exactly along the chains through its channel. */
  lemma {:induction false} OneAllow(chain: seq<Chan>, o: Overwrite)
    requires o.allow
    ensures Granted({}, chain, {o}, o.perm) <==> o.channel in chain
    decreases |chain|
  {
    if chain != [] {
      var k := |chain| - 1;
      OneAllow(chain[..k], o);
      assert o in {o};
      assert chain == chain[..k] + [chain[k]];
    }
  }

  lemma OverCapHolds(parents: Parents, c: Chan, baseline: set<Perm>, rows: set<Overwrite>, p: Perm)
    requires ParentOf(parents, c).Some?
    requires var up := Chain(parents, ParentOf(parents, c).value); |up| > HOP_CAP && up[0] in Chain(parents, c)
    ensures OneLevel(parents, c, baseline, rows, p)
  {
    var up, mine := Chain(parents, ParentOf(parents, c).value), Chain(parents, c);
    ClimbDropsTop(parents, ParentOf(parents, c).value, HOP_CAP - 1);
    var rest := up[1..];
    assert mine == rest + [c] && up == [up[0]] + rest && mine[..|rest|] == rest;
    hide Climb, Chain;
    if !Speaks(rows, c, p) {
      assert up[0] in rest || up[0] == c;
      TopLevelIsIdle(baseline, up[0], rest, rows, p);
    }
  }

  lemma SpeaksOnlyThere(o: Overwrite, c: Chan)
    requires o.channel != c
    ensures !Speaks({o}, c, o.perm)
  {
  }

  lemma OverCapFails(parents: Parents, c: Chan)
    requires ParentOf(parents, c).Some?
    requires var up := Chain(parents, ParentOf(parents, c).value); |up| > HOP_CAP && up[0] !in Chain(parents, c)
    ensures exists rows :: !OneLevel(parents, c, {}, rows, 0)
  {
    var up, mine := Chain(parents, ParentOf(parents, c).value), Chain(parents, c);
    assert mine[|mine| - 1] == c;
    var o := Overwrite(up[0], 0, 0, true);
    hide Climb, Chain;
    SpeaksOnlyThere(o, c);
    hide Speaks, Allows, Granted;
    OneAllow(up, o);
    OneAllow(mine, o);
    assert !OneLevel(parents, c, {}, {o}, 0);
  }

  /** A child's permissions are one level applied to its parent's, for every
      baseline, every set of rows and every permission, exactly when the parent's
      walk ended within the cap or its topmost channel is walked through again on
      the way up from the child, as it is in a cycle short enough. */
  lemma ChildIsOneLevelIff(parents: Parents, c: Chan)
    requires ParentOf(parents, c).Some?
    ensures (forall baseline, rows, p :: OneLevel(parents, c, baseline, rows, p)) <==>
            var up := Chain(parents, ParentOf(parents, c).value);
            |up| <= HOP_CAP || up[0] in Chain(parents, c)
  {
    var up := Chain(parents, ParentOf(parents, c).value);
    hide Chain, OneLevel;
    if |up| <= HOP_CAP || up[0] in Chain(parents, c) {
      forall baseline, rows, p ensures OneLevel(parents, c, baseline, rows, p) {
        if |up| <= HOP_CAP {
          ChildIsOneLevel(parents, c, baseline, rows, p);
        } else {
          OverCapHolds(parents, c, baseline, rows, p);
        }
      }
    } else {
      OverCapFails(parents, c);
    }
  }

  /** On a cycle of two both walks stop at the cap, and the child is one level
      over its parent all the same. */
  lemma ShortCycleIsOneLevel(parents: Parents, a: Chan, b: Chan, baseline: set<Perm>, rows: set<Overwrite>, p: Perm)
    requires ParentOf(parents, a) == Some(b) && ParentOf(parents, b) == Some(a)
    ensures |Chain(parents, b)| > HOP_CAP && OneLevel(parents, a, baseline, rows, p)
  {
    ClimbsPair(parents, a, b, HOP_CAP);
    ClimbsPair(parents, b, a, HOP_CAP);
    hide Climb, OneLevel;
    ChildIsOneLevelIff(parents, a);
  }

  lemma {:induction false} ClimbsPair(parents: Parents, a: Chan, b: Chan, hops: nat)
    requires ParentOf(parents, a) == Some(b) && ParentOf(parents, b) == Some(a)
    ensures var chain := Climb(parents, a, hops);
            && |chain| == hops + 1 && a in chain && (hops > 0 ==> b in chain)
            && forall i :: 0 <= i < |chain| ==> chain[i] == a || chain[i] == b
    decreases hops
  {
    if hops > 0 {
      ClimbsPair(parents, b, a, hops - 1);
    }
  }

  /** `n` channels, each the child of the one before. */
  function Line(n: nat): (r: Parents)
    ensures forall c: nat :: c in r <==> c < n
    ensures forall c: nat :: 0 < c < n ==> r[c] == Some(c - 1)
    ensures n > 0 ==> r[0] == None
  {
    if n == 0 then map[] else Line(n - 1)[n - 1 := if n == 1 then None else Some(n - 2)]
  }

  lemma {:induction false} ClimbLine(n: nat, c: nat, hops: nat, rows: set<Overwrite>, p: Perm)
    requires c < n && forall j :: 0 < j < n ==> !Speaks(rows, j, p)
    ensures Granted({}, Climb(Line(n), c, hops), rows, p) <==> c <= hops && Allows(rows, 0, p)
    decreases hops
  {
    if c > 0 && hops > 0 {
      ClimbLine(n, c - 1, hops - 1, rows, p);
      var up := Climb(Line(n), c - 1, hops - 1);
      assert Climb(Line(n), c, hops) == up + [c] && !Speaks(rows, c, p);
      hide Climb, Line, Speaks, Allows;
      assert (up + [c])[..|up|] == up;
    } else {
      assert Climb(Line(n), c, hops) == [c];
      assert [c][..0] == [];
    }
  }

  /** Beyond the cap it fails: on a line of 66 channels an allow at the root
      reaches the 65th and not its child, although the child has no row. */
  lemma DeepChildDiffers(role: Role, p: Perm)
    ensures var rows := {Overwrite(0, role, p, true)};
            && Granted({}, Chain(Line(66), 64), rows, p)
            && ParentOf(Line(66), 65) == Some(64) && !Speaks(rows, 65, p)
            && !Granted({}, Chain(Line(66), 65), rows, p)
  {
    var o := Overwrite(0, role, p, true);
    var rows := {o};
    assert Allows(rows, 0, p) by { assert o in rows; }
    ClimbLine(66, 64, HOP_CAP, rows, p);
    ClimbLine(66, 65, HOP_CAP, rows, p);
  }

  // ---- The two resolvers ---------------------------------------------------------------

  datatype Hub = Hub(
    channels: Parents,
    overwrites: set<Overwrite>,
    memberRoles: map<User, set<Role>>,
    rolePerms: map<Role, set<Perm>>,
    bans: map<User, set<Chan>>)

  datatype UserPermissions = UserPermissions(roles: set<Role>, effective: set<Perm>, owner: bool) {
    predicate Has(p: Perm) {
      owner || p in effective
    }
  }

  function RolesOf(h: Hub, u: User): set<Role> {
    if u in h.memberRoles then h.memberRoles[u] else {}
  }

  function BannedFrom(h: Hub, u: User): set<Chan> {
    if u in h.bans then h.bans[u] else {}
  }

  /** The hub-wide baseline. */
  function HubWide(h: Hub, u: User): UserPermissions {
    var roles := RolesOf(h, u);
    UserPermissions(roles, set r, p | r in roles && r in h.rolePerms && p in h.rolePerms[r] :: p, OWNER_ROLE in roles)
  }

  /** Overwrites name channels that exist (a foreign key). */
  predicate OverwritesExist(h: Hub) {
    forall o :: o in h.overwrites ==> o.channel in h.channels
  }

  function OnChain(chain: seq<Chan>): set<Chan> {
    set c | c in chain
  }

  function Fetched(h: Hub, channels: set<Chan>, roles: set<Role>): set<Overwrite> {
    set o | o in h.overwrites && o.channel in channels && o.role in roles
  }

  /** The rows come back in any order. */
  method FetchOverwrites(h: Hub, channels: set<Chan>, roles: set<Role>) returns (rows: seq<Overwrite>)
    ensures RowSet(rows) == Fetched(h, channels, roles)
  {
    rows := [];
    var left := Fetched(h, channels, roles);
    while left != {}
      invariant left <= Fetched(h, channels, roles)
      invariant RowSet(rows) == Fetched(h, channels, roles) - left
      decreases |left|
    {
      var o :| o in left;
      assert RowSet(rows + [o]) == RowSet(rows) + {o};
      rows := rows + [o];
      left := left - {o};
    }
  }

  /** What one channel's resolver answers. */
  ghost predicate MayIn(h: Hub, u: User, c: Chan, p: Perm) {
    var base := HubWide(h, u);
    || base.owner
    || (c !in BannedFrom(h, u)
        && (if base.roles == {} then p in base.effective
            else Granted(base.effective, Chain(h.channels, c),
                         Fetched(h, OnChain(Chain(h.channels, c)), base.roles), p)))
  }

  // ---- What the answer means, over the tables -----------------------------------------

  /** The user's rows of `member_roles`. */
  ghost predicate Holds(h: Hub, u: User, r: Role) {
    u in h.memberRoles && r in h.memberRoles[u]
  }

  ghost predicate Banned(h: Hub, u: User, c: Chan) {
    u in h.bans && c in h.bans[u]
  }

  /** A row of the table for this permission on this channel and a role the user holds. */
  ghost predicate HasRow(h: Hub, u: User, c: Chan, p: Perm, allow: bool) {
    exists r :: Holds(h, u, r) && Overwrite(c, r, p, allow) in h.overwrites
  }

  /** Some role the user holds carries the permission. */
  ghost predicate Carries(h: Hub, u: User, p: Perm) {
    exists r :: Holds(h, u, r) && r in h.rolePerms && p in h.rolePerms[r]
  }

  lemma BaselineIsCarried(h: Hub, u: User, p: Perm)
    ensures p in HubWide(h, u).effective <==> Carries(h, u, p)
    ensures HubWide(h, u).owner <==> Holds(h, u, OWNER_ROLE)
    ensures HubWide(h, u).roles == {} <==> forall r :: !Holds(h, u, r)
  {
    if Carries(h, u, p) {
      var r :| Holds(h, u, r) && r in h.rolePerms && p in h.rolePerms[r];
      assert r in RolesOf(h, u);
    }
    forall r | r in RolesOf(h, u) ensures Holds(h, u, r) {
    }
  }

  lemma FetchedSpeak(h: Hub, u: User, channels: set<Chan>, c: Chan, p: Perm)
    requires c in channels
    ensures var rows := Fetched(h, channels, RolesOf(h, u));
            && (Allows(rows, c, p) <==> HasRow(h, u, c, p, true))
            && (Denies(rows, c, p) <==> HasRow(h, u, c, p, false))
  {
    var rows := Fetched(h, channels, RolesOf(h, u));
    if HasRow(h, u, c, p, true) {
      var r :| Holds(h, u, r) && Overwrite(c, r, p, true) in h.overwrites;
      assert Overwrite(c, r, p, true) in rows;
    }
    if HasRow(h, u, c, p, false) {
      var r :| Holds(h, u, r) && Overwrite(c, r, p, false) in h.overwrites;
      assert Overwrite(c, r, p, false) in rows;
    }
    forall o | o in rows && o.channel == c && o.perm == p ensures HasRow(h, u, c, p, o.allow) {
      assert Holds(h, u, o.role) && Overwrite(c, o.role, p, o.allow) in h.overwrites;
    }
  }

  /** Over the tables: the owner may do everything and a banned member nothing.
      For anyone else the deepest channel on the way up that has a row for the
      permission and a role of theirs decides, by allowing if any such row
      allows; where there is none, the permission is had exactly when a role of
      theirs carries it. `k` is how far up the chain that channel is. */
  lemma MayInMeans(h: Hub, u: User, c: Chan, p: Perm, k: nat)
    requires var chain := Chain(h.channels, c);
             && k <= |chain|
             && (forall j, allow :: k <= j < |chain| ==> !HasRow(h, u, chain[j], p, allow))
             && (k > 0 ==> HasRow(h, u, chain[k - 1], p, true) || HasRow(h, u, chain[k - 1], p, false))
    ensures MayIn(h, u, c, p) <==>
            || Holds(h, u, OWNER_ROLE)
            || (!Banned(h, u, c)
                && (if k == 0 then Carries(h, u, p) else HasRow(h, u, Chain(h.channels, c)[k - 1], p, true)))
  {
    var chain := Chain(h.channels, c);
    var base := HubWide(h, u);
    var rows := Fetched(h, OnChain(chain), base.roles);
    BaselineIsCarried(h, u, p);
    assert c in BannedFrom(h, u) <==> Banned(h, u, c);
    if base.roles == {} {
      assert k == 0;
    } else {
      forall j | 0 <= j < |chain|
        ensures Allows(rows, chain[j], p) <==> HasRow(h, u, chain[j], p, true)
        ensures Speaks(rows, chain[j], p) <==> HasRow(h, u, chain[j], p, true) || HasRow(h, u, chain[j], p, false)
      {
        FetchedSpeak(h, u, OnChain(chain), chain[j], p);
      }
      hide Chain, HubWide, Fetched, Allows, Speaks, HasRow, Carries, Holds, Granted;
      DeepestDecides(base.effective, chain, rows, p, k);
    }
  }

  /** There is one such `k`. */
  lemma {:induction false} DeepestRow(h: Hub, u: User, chain: seq<Chan>, p: Perm) returns (k: nat)
    ensures k <= |chain| && forall j, allow :: k <= j < |chain| ==> !HasRow(h, u, chain[j], p, allow)
    ensures k > 0 ==> HasRow(h, u, chain[k - 1], p, true) || HasRow(h, u, chain[k - 1], p, false)
    decreases |chain|
  {
    k := |chain|;
    if k > 0 && !HasRow(h, u, chain[k - 1], p, true) && !HasRow(h, u, chain[k - 1], p, false) {
      var up := chain[..k - 1];
      k := DeepestRow(h, u, up, p);
      forall j, allow | k <= j < |chain| ensures !HasRow(h, u, chain[j], p, allow) {
        if j < |up| {
          assert up[j] == chain[j];
        } else {
          assert allow == true || allow == false;
        }
      }
    }
  }

  /** Without a row for a role of theirs on the channel's chain, what a member who
      is neither owner nor banned may do is what their roles carry; a user
      without roles may do nothing, nor may one banned from the channel. */
  lemma PlainAnswers(h: Hub, u: User, c: Chan, p: Perm)
    ensures Holds(h, u, OWNER_ROLE) ==> MayIn(h, u, c, p)
    ensures (forall r :: !Holds(h, u, r)) ==> !MayIn(h, u, c, p)
    ensures Banned(h, u, c) && !Holds(h, u, OWNER_ROLE) ==> !MayIn(h, u, c, p)
    ensures !Banned(h, u, c) && !Holds(h, u, OWNER_ROLE)
            && (forall j, allow :: 0 <= j < |Chain(h.channels, c)| ==> !HasRow(h, u, Chain(h.channels, c)[j], p, allow)) ==>
              (MayIn(h, u, c, p) <==> exists r :: Holds(h, u, r) && r in h.rolePerms && p in h.rolePerms[r])
  {
    var k := DeepestRow(h, u, Chain(h.channels, c), p);
    MayInMeans(h, u, c, p, k);
    hide Chain, MayIn;
  }

  /** The two hubs agree on everything but the permissions and overwrites of roles
      this user does not hold. */
  ghost predicate AlikeFor(a: Hub, b: Hub, u: User) {
    && a.channels == b.channels
    && (forall r :: Holds(a, u, r) <==> Holds(b, u, r))
    && (forall c :: Banned(a, u, c) <==> Banned(b, u, c))
    && (forall r, p :: Holds(a, u, r) ==>
          (r in a.rolePerms && p in a.rolePerms[r] <==> r in b.rolePerms && p in b.rolePerms[r]))
    && (forall o: Overwrite :: Holds(a, u, o.role) ==> (o in a.overwrites <==> o in b.overwrites))
  }

  /** The roles a user does not hold do not matter, nor do other users. */
  lemma OtherRolesDoNotMatter(a: Hub, b: Hub, u: User, c: Chan, p: Perm)
    requires AlikeFor(a, b, u)
    ensures MayIn(a, u, c, p) <==> MayIn(b, u, c, p)
  {
    var chain := Chain(a.channels, c);
    var k := DeepestRow(a, u, chain, p);
    forall x, allow ensures HasRow(a, u, x, p, allow) <==> HasRow(b, u, x, p, allow) {
      RowsAlike(a, b, u, x, p, allow);
    }
    assert Carries(a, u, p) <==> Carries(b, u, p);
    hide HasRow, Carries, MayIn, Chain;
    MayInMeans(a, u, c, p, k);
    MayInMeans(b, u, c, p, k);
  }

  lemma RowsAlike(a: Hub, b: Hub, u: User, c: Chan, p: Perm, allow: bool)
    requires AlikeFor(a, b, u)
    ensures HasRow(a, u, c, p, allow) <==> HasRow(b, u, c, p, allow)
  {
    forall r | Holds(a, u, r) ensures Overwrite(c, r, p, allow) in a.overwrites <==> Overwrite(c, r, p, allow) in b.overwrites {
      assert Overwrite(c, r, p, allow).role == r;
    }
    hide Holds;
  }

  // ---- The resolvers -----------------------------------------------------------------

  method ChannelPermissions(h: Hub, u: User, c: Chan) returns (r: UserPermissions)
    ensures r.roles == RolesOf(h, u) && r.owner == (OWNER_ROLE in RolesOf(h, u))
    ensures forall p :: r.Has(p) <==> MayIn(h, u, c, p)
    ensures forall p :: r.Has(p) ==> Holds(h, u, OWNER_ROLE) || (!Banned(h, u, c) && exists role :: Holds(h, u, role))
    ensures Holds(h, u, OWNER_ROLE) ==> forall p :: r.Has(p)
  {
    forall p {
      PlainAnswers(h, u, c, p);
    }
    var base := HubWide(h, u);
    if !base.owner && c in BannedFrom(h, u) {
      return base.(effective := {});
    }
    if base.roles == {} {
      return base;
    }
    var chain := AncestorChain(h.channels, c);
    var rows := FetchOverwrites(h, OnChain(chain), base.roles);
    var effective := FoldOverwrites(base.effective, chain, rows);
    r := UserPermissions(base.roles, effective, base.owner);
  }

  /** Rows fetched for every channel of the table answer as the rows fetched for
      one chain, dangling and cyclic parents included. */
  lemma AllRowsAnswerAlike(h: Hub, u: User, c: Chan, p: Perm)
    requires OverwritesExist(h)
    ensures var base := HubWide(h, u);
            Granted(base.effective, Chain(h.channels, c), Fetched(h, h.channels.Keys, base.roles), p) <==>
            Granted(base.effective, Chain(h.channels, c), Fetched(h, OnChain(Chain(h.channels, c)), base.roles), p)
  {
    var base := HubWide(h, u);
    OnlyChainRowsMatter(base.effective, Chain(h.channels, c), Fetched(h, h.channels.Keys, base.roles),
                        Fetched(h, OnChain(Chain(h.channels, c)), base.roles), p);
  }

  /** The batched resolver answers for every channel of the table what the
      single one answers for it. */
  method ChannelsWithPermission(h: Hub, u: User, p: Perm) returns (cs: set<Chan>)
    requires OverwritesExist(h)
    ensures forall c :: c in cs <==> c in h.channels && MayIn(h, u, c, p)
    ensures forall c :: c in cs ==> Holds(h, u, OWNER_ROLE) || (!Banned(h, u, c) && exists role :: Holds(h, u, role))
    ensures Holds(h, u, OWNER_ROLE) ==> cs == h.channels.Keys
  {
    forall c {
      PlainAnswers(h, u, c, p);
    }
    var base := HubWide(h, u);
    if base.owner {
      return h.channels.Keys;
    }
    var banned := BannedFrom(h, u);
    if base.roles == {} {
      return set c | c in h.channels && p in base.effective && c !in banned;
    }
    var rows := FetchOverwrites(h, h.channels.Keys, base.roles);
    cs := {};
    var left := h.channels.Keys;
    while left != {}
      invariant left <= h.channels.Keys
      invariant forall c :: c in cs <==> c in h.channels.Keys - left && MayIn(h, u, c, p)
      decreases |left|
    {
      var c :| c in left;
      if c !in banned {
        var chain := AncestorChain(h.channels, c);
        var effective := FoldOverwrites(base.effective, chain, rows);
        AllRowsAnswerAlike(h, u, c, p);
        if p in effective {
          cs := cs + {c};
        }
      }
      left := left - {c};
    }
  }
}
