/** Attachments over whole runs. Operations under the store lock are taken
    statement by statement; `link`, banner changes and the deletion of a
    message, which take no lock, may come between any two statements. */
module AttachmentRuns {
  import opened Bytes
  import opened Basics
  import opened AttachmentDb
  import opened SqlOrder

  /** How far the lock holder has come. */
  datatype Phase =
    | Idle
    | Marked(sha: Sha)             // rows expired, blob row not yet deleted
    | Unlinking(left: set<Sha>)    // blob rows deleted, files not yet
    | Written(sha: Sha)            // file in place, blob row not yet
    | Landed(sha: Sha)             // file and blob row in place, upload row not yet

  /** `batch` is what the eviction in progress still holds of its query's answer;
      `spent` holds every row id ever handed out: a fresh uuid is none of them. */
  datatype Machine = Machine(d: Db, phase: Phase, batch: set<Sha>, spent: set<Id>)

  /** The steps that take no lock. */
  predicate Unlocked(st: Stmt) {
    st.LinkAll? || st.SetBanner? || st.DeleteOwner?
  }

  function Clearing(left: set<Sha>): Phase {
    if left == {} then Idle else Unlinking(left)
  }

  /** The program order of the code under the lock. */
  predicate Allowed(hash: Content -> Sha, m: Machine, st: Stmt) {
    match st
    case ExpireOld(_, _) => m.phase.Idle?
    case DeleteOrphans(_) => m.phase.Idle?
    case DeleteUnwanted => m.phase.Idle?
    case RemoveFile(s) => m.phase.Unlinking? && s in m.phase.left
    case QueryBatch => m.phase.Idle?
    case EndEviction => m.phase.Idle?
    case ExpireRowsOn(s, _) => m.phase.Idle? && s in m.batch
    case DeleteBlob(s) => m.phase == Marked(s)
    case WriteFile(s, content) => m.phase.Idle? && hash(content) == s
    case UpsertBlob(s, _) => m.phase == Written(s) || (m.phase.Idle? && s in m.d.blobs && s in m.d.files)
    case InsertRow(id, r) =>
      id !in m.spent && r.sha.Some? && m.phase == Landed(r.sha.value) && r.Live() && !r.Linked()
    case MarkRemoved(_, _) => m.phase.Idle?
    case LinkAll(_, _, _, _) => true
    case SetBanner(_, _) => true
    case DeleteOwner(_, _) => true
  }

  function NextPhase(m: Machine, st: Stmt): Phase {
    match st
    case DeleteUnwanted => Clearing(Unwanted(m.d))
    case RemoveFile(s) => if m.phase.Unlinking? then Clearing(m.phase.left - {s}) else m.phase
    case ExpireRowsOn(s, _) => Marked(s)
    case DeleteBlob(s) => Unlinking({s})
    case WriteFile(s, _) => Written(s)
    case UpsertBlob(s, _) => Landed(s)
    case InsertRow(_, _) => Idle
    case _ => m.phase
  }

  /** An eviction takes its batch one by one; any other operation ends it. */
  function BatchAfter(m: Machine, st: Stmt): set<Sha> {
    match st
    case QueryBatch => set s | s in NextBatch(m.d)
    case ExpireRowsOn(s, _) => m.batch - {s}
    case DeleteBlob(_) => m.batch
    case RemoveFile(_) => m.batch
    case _ => if Unlocked(st) then m.batch else {}
  }

  function Next(m: Machine, st: Stmt): Machine {
    Machine(Exec(m.d, st), NextPhase(m, st), BatchAfter(m, st), if st.InsertRow? then m.spent + {st.id} else m.spent)
  }

  function Run(m: Machine, sts: seq<Stmt>): Machine
    decreases |sts|
  {
    if sts == [] then m else Run(Next(m, sts[0]), sts[1..])
  }

  predicate Lawful(hash: Content -> Sha, m: Machine, sts: seq<Stmt>)
    decreases |sts|
  {
    sts == [] || (Allowed(hash, m, sts[0]) && Lawful(hash, Next(m, sts[0]), sts[1..]))
  }

  // ---- The invariant ------------------------------------------------------

  predicate OneOwner(r: Row) {
    && (r.message.Some? ==> r.post.None? && r.reply.None?)
    && (r.post.Some? ==> r.reply.None?)
  }

  /** What one row needs of the other tables: a digest names a blob row, and a
      live row also has its file. */
  predicate RowBacked(d: Db, r: Row) {
    && (r.sha.Some? ==> r.sha.value in d.blobs)
    && (r.Live() ==> r.sha.Some? && r.sha.value in d.files)
    && OneOwner(r)
  }

  predicate Backed(d: Db) {
    forall id :: id in d.rows ==> RowBacked(d, d.rows[id])
  }

  predicate FilesKeyed(hash: Content -> Sha, d: Db) {
    forall s :: s in d.files ==> hash(d.files[s]) == s
  }

  ghost predicate PhaseHolds(m: Machine) {
    match m.phase
    case Idle => true
    case Marked(s) => !Wanted(m.d, s)
    case Unlinking(left) => left != {} && left !! m.d.blobs.Keys
    case Written(s) => s in m.d.files && m.batch == {}
    case Landed(s) => s in m.d.files && s in m.d.blobs && m.batch == {}
  }

  ghost predicate Inv(hash: Content -> Sha, m: Machine) {
    && Backed(m.d)
    && FilesKeyed(hash, m.d)
    && m.d.rows.Keys <= m.spent
    && PhaseHolds(m)
  }

  /** A link, a change of banner and the deletion of a message wait for nobody: they
      may come wherever the holder of the lock is. */
  lemma HandlersNeverWait(hash: Content -> Sha, m: Machine, st: Stmt)
    requires st.LinkAll? || st.SetBanner? || st.DeleteOwner?
    ensures Allowed(hash, m, st)
  {
  }

  ghost predicate BannerElsewhere(d: Db, channel: nat, id: Id) {
    exists c :: c in d.banners && c != channel && d.banners[c] == id
  }

  /** After a change of banner a row is pinned if it is the new one or another
      channel has it. */
  lemma BannerIsSet(d: Db, channel: nat, pin: Option<Id>, id: Id)
    ensures Pinned(Exec(d, SetBanner(channel, pin)), id) <==> pin == Some(id) || BannerElsewhere(d, channel, id)
  {
    var e := Exec(d, SetBanner(channel, pin));
    if pin == Some(id) {
      assert e.banners[channel] == id;
    }
    if BannerElsewhere(d, channel, id) {
      var c :| c in d.banners && c != channel && d.banners[c] == id;
      assert c in e.banners && e.banners[c] == id;
    }
  }

  /** What a successful `link` has done to the rows. */
  predicate LinkedAs(rows: map<Id, Row>, rs: map<Id, Row>, o: Owner, owner: nat, ids: seq<Id>) {
    && rs.Keys == rows.Keys
    && (forall id :: id in rows && id !in ids ==> rs[id] == rows[id])
    && (forall i :: 0 <= i < |ids| ==>
          Linkable(rows, ids[i]) && rs[ids[i]] == rows[ids[i]].WithOwner(o, owner, i))
    && Distinct(ids)
  }

  lemma LinkOneMore(rows: map<Id, Row>, rs: map<Id, Row>, o: Owner, owner: nat, ids: seq<Id>, id: Id)
    requires LinkedAs(rows, rs, o, owner, ids) && Linkable(rs, id)
    ensures LinkedAs(rows, rs[id := rs[id].WithOwner(o, owner, |ids|)], o, owner, ids + [id])
  {
    var linked := rs[id := rs[id].WithOwner(o, owner, |ids|)];
    assert id !in ids by {
      forall i | 0 <= i < |ids| ensures ids[i] != id {
        assert rs[ids[i]].Linked();
      }
    }
    assert Linkable(rows, id) && linked[id] == rows[id].WithOwner(o, owner, |ids|);
    hide Linkable;
    forall i | 0 <= i < |ids + [id]|
      ensures Linkable(rows, (ids + [id])[i]) && linked[(ids + [id])[i]] == rows[(ids + [id])[i]].WithOwner(o, owner, i)
    {
      if i < |ids| {
        assert (ids + [id])[i] == ids[i];
      }
    }
  }

  lemma {:induction false} LinkRowsKeeps(rows: map<Id, Row>, o: Owner, owner: nat, ids: seq<Id>)
    requires LinkRows(rows, o, owner, ids).Some?
    ensures LinkedAs(rows, LinkRows(rows, o, owner, ids).value, o, owner, ids)
    decreases |ids|
  {
    if ids != [] {
      var k := |ids| - 1;
      LinkRowsKeeps(rows, o, owner, ids[..k]);
      var rs := LinkRows(rows, o, owner, ids[..k]).value;
      LinkOneMore(rows, rs, o, owner, ids[..k], ids[k]);
      assert ids[..k] + [ids[k]] == ids;
    }
  }

  lemma DropKeepsBacked(d: Db, gone: set<Sha>)
    requires Backed(d)
    requires forall s :: s in gone ==> !Wanted(d, s)
    ensures Backed(DropBlobs(d, gone))
  {
    var d' := DropBlobs(d, gone);
    forall id | id in d'.rows ensures RowBacked(d', d'.rows[id]) {
      assert RowBacked(d, d.rows[id]);
      if d.rows[id].sha.Some? && d.rows[id].sha.value in gone {
        assert !d.rows[id].Wants(d.rows[id].sha.value);
      }
    }
  }

  lemma LinkKeepsBacked(d: Db, o: Owner, owner: nat, ids: seq<Id>, now: int)
    requires Backed(d)
    ensures Backed(Exec(d, LinkAll(o, owner, ids, now)))
  {
    if LinkRows(d.rows, o, owner, ids).Some? {
      var d' := Exec(d, LinkAll(o, owner, ids, now));
      LinkRowsKeeps(d.rows, o, owner, ids);
      forall id | id in d'.rows ensures RowBacked(d', d'.rows[id]) {
        assert RowBacked(d, d.rows[id]);
        if id in ids {
          var i :| 0 <= i < |ids| && ids[i] == id;
        }
      }
    }
  }

  /** The statements that rewrite or delete rows one by one. */
  predicate RowsOnly(st: Stmt) {
    st.ExpireOld? || st.DeleteOrphans? || st.ExpireRowsOn? || st.MarkRemoved? || st.SetBanner? || st.DeleteOwner?
    || st.QueryBatch? || st.EndEviction?
  }

  lemma RowsOnlyKeepsBacked(d: Db, st: Stmt)
    requires Backed(d) && RowsOnly(st)
    ensures Backed(Exec(d, st))
  {
    var d' := Exec(d, st);
    forall id | id in d'.rows ensures RowBacked(d', d'.rows[id]) {
      assert RowBacked(d, d.rows[id]);
    }
  }

  /** The statements that add or remove a file, a blob row or an upload row. */
  lemma StoringKeepsBacked(hash: Content -> Sha, m: Machine, st: Stmt)
    requires Inv(hash, m) && Allowed(hash, m, st)
    requires st.RemoveFile? || st.WriteFile? || st.UpsertBlob? || st.InsertRow?
    ensures Backed(Exec(m.d, st))
  {
    var d, d' := m.d, Exec(m.d, st);
    forall id | id in d'.rows ensures RowBacked(d', d'.rows[id]) {
      if !st.InsertRow? || id != st.id {
        assert RowBacked(d, d.rows[id]);
      }
    }
  }

  lemma NextKeepsBacked(hash: Content -> Sha, m: Machine, st: Stmt)
    requires Inv(hash, m) && Allowed(hash, m, st)
    ensures Backed(Exec(m.d, st))
  {
    var d := m.d;
    if RowsOnly(st) {
      RowsOnlyKeepsBacked(d, st);
    } else if st.DeleteUnwanted? {
      DropKeepsBacked(d, Unwanted(d));
    } else if st.DeleteBlob? {
      DropKeepsBacked(d, {st.sha});
    } else if st.LinkAll? {
      LinkKeepsBacked(d, st.owner, st.ownerId, st.ids, st.now);
    } else {
      StoringKeepsBacked(hash, m, st);
    }
  }

  lemma NextKeepsMarked(hash: Content -> Sha, m: Machine, st: Stmt)
    requires Inv(hash, m) && Allowed(hash, m, st)
    requires Next(m, st).phase.Marked?
    ensures PhaseHolds(Next(m, st))
  {
    var m' := Next(m, st);
    var s := m'.phase.sha;
    if st.LinkAll? {
      LinkWantsNothingNew(m.d, st.owner, st.ownerId, st.ids, st.now, s);
    } else {
      forall id | id in m'.d.rows ensures !m'.d.rows[id].Wants(s) {
        assert id in m.d.rows;
        assert m.phase == m'.phase ==> !m.d.rows[id].Wants(s);
      }
    }
  }

  lemma LinkWantsNothingNew(d: Db, o: Owner, owner: nat, ids: seq<Id>, now: int, s: Sha)
    requires !Wanted(d, s)
    ensures !Wanted(Exec(d, LinkAll(o, owner, ids, now)), s)
  {
    if LinkRows(d.rows, o, owner, ids).Some? {
      var d' := Exec(d, LinkAll(o, owner, ids, now));
      LinkRowsKeeps(d.rows, o, owner, ids);
      forall id | id in d'.rows ensures !d'.rows[id].Wants(s) {
        assert id in d.rows && !d.rows[id].Wants(s);
        if id in ids {
          var i :| 0 <= i < |ids| && ids[i] == id;
        }
      }
    }
  }

  lemma NextKeepsPhase(hash: Content -> Sha, m: Machine, st: Stmt)
    requires Inv(hash, m) && Allowed(hash, m, st)
    ensures PhaseHolds(Next(m, st))
  {
    if Next(m, st).phase.Marked? {
      NextKeepsMarked(hash, m, st);
    }
  }

  lemma NextKeepsInv(hash: Content -> Sha, m: Machine, st: Stmt)
    requires Inv(hash, m) && Allowed(hash, m, st)
    ensures Inv(hash, Next(m, st))
  {
    NextKeepsBacked(hash, m, st);
    NextKeepsPhase(hash, m, st);
    assert Next(m, st).d.rows.Keys <= Next(m, st).spent by {
      if st.LinkAll? && LinkRows(m.d.rows, st.owner, st.ownerId, st.ids).Some? {
        LinkRowsKeeps(m.d.rows, st.owner, st.ownerId, st.ids);
      }
    }
  }

  lemma {:induction false} RunKeepsInv(hash: Content -> Sha, m: Machine, sts: seq<Stmt>)
    requires Inv(hash, m) && Lawful(hash, m, sts)
    ensures Inv(hash, Run(m, sts))
    decreases |sts|
  {
    if sts != [] {
      NextKeepsInv(hash, m, sts[0]);
      RunKeepsInv(hash, Next(m, sts[0]), sts[1..]);
    }
  }

  // ---- One row's life -------------------------------------------------------

  /** `later` can follow `r`: tombstones stay, an owner and a place once given
      stay, and a digest is only ever cleared. */
  predicate Follows(r: Row, later: Row) {
    && (r.removed.Some? ==> later.removed == r.removed)
    && (r.expired.Some? ==> later.expired == r.expired)
    && (r.Linked() ==>
          && later.message == r.message && later.post == r.post && later.reply == r.reply
          && later.position == r.position)
    && (later.sha == r.sha || later.sha.None?)
    && later.name == r.name && later.uploader == r.uploader && later.channel == r.channel
    && later.created == r.created && later.asFile == r.asFile
  }

  lemma LinkFollows(d: Db, o: Owner, owner: nat, ids: seq<Id>, now: int, id: Id)
    requires id in Exec(d, LinkAll(o, owner, ids, now)).rows
    ensures id in d.rows && Follows(d.rows[id], Exec(d, LinkAll(o, owner, ids, now)).rows[id])
  {
    if LinkRows(d.rows, o, owner, ids).Some? {
      LinkRowsKeeps(d.rows, o, owner, ids);
      if id in ids {
        var i :| 0 <= i < |ids| && ids[i] == id;
      }
    }
  }

  lemma NextFollows(hash: Content -> Sha, m: Machine, st: Stmt, id: Id)
    requires Inv(hash, m) && Allowed(hash, m, st)
    requires id in m.spent && id in Next(m, st).d.rows
    ensures id in m.d.rows && Follows(m.d.rows[id], Next(m, st).d.rows[id])
  {
    if st.LinkAll? {
      LinkFollows(m.d, st.owner, st.ownerId, st.ids, st.now, id);
    } else if RowsOnly(st) {
      RowsOnlyFollows(m.d, st, id);
    }
  }

  lemma RowsOnlyFollows(d: Db, st: Stmt, id: Id)
    requires RowsOnly(st) && id in Exec(d, st).rows
    ensures id in d.rows && Follows(d.rows[id], Exec(d, st).rows[id])
  {
    assert id in d.rows;
    TombstonedFollows(d.rows[id], st);
    hide Follows, Expired;
  }

  /** What these statements can make of a row. */
  lemma TombstonedFollows(r: Row, st: Stmt)
    ensures Follows(r, r)
    ensures st.ExpireOld? || st.ExpireRowsOn? ==> Follows(r, Expired(r, st.now))
    ensures st.MarkRemoved? ==> Follows(r, r.(sha := None, removed := if r.removed.Some? then r.removed else Some(st.now)))
  {
  }

  lemma {:induction false} RunFollows(hash: Content -> Sha, m: Machine, sts: seq<Stmt>, id: Id)
    requires Inv(hash, m) && Lawful(hash, m, sts)
    requires id in m.spent && id in Run(m, sts).d.rows
    ensures id in m.d.rows && Follows(m.d.rows[id], Run(m, sts).d.rows[id])
    decreases |sts|
  {
    if sts != [] {
      NextKeepsInv(hash, m, sts[0]);
      RunFollows(hash, Next(m, sts[0]), sts[1..], id);
      NextFollows(hash, m, sts[0], id);
    }
  }

  lemma OkMeansLive(hash: Content -> Sha, m: Machine, id: Id)
    requires Inv(hash, m) && id in m.d.rows
    ensures RefOf(m.d, id).state == Ok <==> m.d.rows[id].Live()
  {
    assert RowBacked(m.d, m.d.rows[id]);
  }

  /** A row once shown as removed or expired is never shown as ok again, even
      when the same bytes are uploaded again; removed stays removed. */
  lemma TombstonesStay(hash: Content -> Sha, m: Machine, sts: seq<Stmt>, id: Id)
    requires Inv(hash, m) && Lawful(hash, m, sts)
    requires id in m.d.rows && id in Run(m, sts).d.rows
    ensures RefOf(m.d, id).state != Ok ==> RefOf(Run(m, sts).d, id).state != Ok
    ensures RefOf(m.d, id).state == Removed ==> RefOf(Run(m, sts).d, id).state == Removed
  {
    RunFollows(hash, m, sts, id);
    RunKeepsInv(hash, m, sts);
    OkMeansLive(hash, m, id);
    OkMeansLive(hash, Run(m, sts), id);
  }

  /** At every statement boundary a reader gets bytes exactly for the live rows,
      and the bytes are the ones the row's digest names. */
  lemma LiveRowsAreServed(hash: Content -> Sha, m: Machine, id: Id)
    requires Inv(hash, m)
    ensures Serve(m.d, id).Bytes? <==> id in m.d.rows && m.d.rows[id].Live()
    ensures Serve(m.d, id).NotFound? <==> id !in m.d.rows
    ensures Serve(m.d, id).Bytes? ==> m.d.rows[id].sha == Some(hash(Serve(m.d, id).content))
    ensures Serve(m.d, id).Bytes? ==>
              && m.d.rows[id].sha.value in m.d.blobs
              && Serve(m.d, id).inline == (m.d.blobs[m.d.rows[id].sha.value].image && !m.d.rows[id].asFile)
    ensures Serve(m.d, id) == IsGone(Removed) <==> id in m.d.rows && m.d.rows[id].removed.Some?
    ensures Serve(m.d, id) == IsGone(Gone) <==>
              id in m.d.rows && m.d.rows[id].removed.None? && m.d.rows[id].expired.Some?
  {
    if id in m.d.rows {
      OkMeansLive(hash, m, id);
      assert RowBacked(m.d, m.d.rows[id]);
    }
  }

  /** While a row is served at all it is served the same bytes. */
  lemma SameBytesServed(hash: Content -> Sha, m: Machine, sts: seq<Stmt>, id: Id)
    requires Inv(hash, m) && Lawful(hash, m, sts)
    requires forall a, b :: hash(a) == hash(b) ==> a == b
    requires Serve(m.d, id).Bytes? && Serve(Run(m, sts).d, id).Bytes?
    ensures Serve(Run(m, sts).d, id).content == Serve(m.d, id).content
  {
    RunKeepsInv(hash, m, sts);
    LiveRowsAreServed(hash, m, id);
    LiveRowsAreServed(hash, Run(m, sts), id);
    RunFollows(hash, m, sts, id);
  }

  // ---- Linking ----------------------------------------------------------------

  predicate AllFree(rows: map<Id, Row>, ids: seq<Id>) {
    Distinct(ids) && forall i :: 0 <= i < |ids| ==> Linkable(rows, ids[i])
  }

  lemma AllFreeSnoc(rows: map<Id, Row>, ids: seq<Id>, id: Id)
    ensures AllFree(rows, ids + [id]) <==> AllFree(rows, ids) && id !in ids && Linkable(rows, id)
  {
    hide Linkable;
    var more := ids + [id];
    assert more[|ids|] == id && forall i :: 0 <= i < |ids| ==> more[i] == ids[i];
  }

  lemma OneMoreIsFree(rows: map<Id, Row>, rs: map<Id, Row>, o: Owner, owner: nat, ids: seq<Id>, id: Id)
    requires LinkedAs(rows, rs, o, owner, ids)
    ensures Linkable(rs, id) <==> id !in ids && Linkable(rows, id)
  {
    if id in ids {
      var i :| 0 <= i < |ids| && ids[i] == id;
    }
  }

  lemma {:induction false} LinkSucceedsIfFree(rows: map<Id, Row>, o: Owner, owner: nat, ids: seq<Id>)
    ensures LinkRows(rows, o, owner, ids).Some? <==> AllFree(rows, ids)
    decreases |ids|
  {
    if ids != [] {
      hide Linkable, AllFree, LinkedAs;
      var k := |ids| - 1;
      LinkSucceedsIfFree(rows, o, owner, ids[..k]);
      AllFreeSnoc(rows, ids[..k], ids[k]);
      assert ids[..k] + [ids[k]] == ids;
      if LinkRows(rows, o, owner, ids[..k]).Some? {
        LinkRowsKeeps(rows, o, owner, ids[..k]);
        OneMoreIsFree(rows, LinkRows(rows, o, owner, ids[..k]).value, o, owner, ids[..k], ids[k]);
      }
    }
  }

  /** All or nothing: `link` succeeds exactly when every id is a live row with
      no owner yet and none is given twice. */
  lemma LinkSucceedsIff(rows: map<Id, Row>, o: Owner, owner: nat, ids: seq<Id>)
    ensures LinkRows(rows, o, owner, ids).Some? <==>
            Distinct(ids) && forall i :: 0 <= i < |ids| ==> Linkable(rows, ids[i])
  {
    LinkSucceedsIfFree(rows, o, owner, ids);
    hide Linkable, Distinct, LinkRows;
  }

  /** `ids`, in this order, are the attachments of one owner. */
  predicate Carries(d: Db, o: Owner, owner: nat, ids: seq<Id>) {
    && Distinct(ids)
    && (forall id :: id in d.rows && d.rows[id].OwnerId(o) == Some(owner) ==> id in ids)
    && (forall i :: 0 <= i < |ids| ==>
          ids[i] in d.rows && d.rows[ids[i]].OwnerId(o) == Some(owner) && d.rows[ids[i]].position == i)
  }

  lemma LinkCarries(d: Db, o: Owner, owner: nat, ids: seq<Id>, now: int)
    requires RowsOf(d, o, owner) == {} && Link(d, o, owner, ids, now).Some?
    ensures Carries(Link(d, o, owner, ids, now).value, o, owner, ids)
  {
    LinkRowsKeeps(d.rows, o, owner, ids);
    var d' := Link(d, o, owner, ids, now).value;
    forall id | id in d'.rows && d'.rows[id].OwnerId(o) == Some(owner) ensures id in ids {
      assert id !in RowsOf(d, o, owner);
    }
  }

  lemma CarriesLoads(d: Db, o: Owner, owner: nat, ids: seq<Id>)
    requires Carries(d, o, owner, ids)
    ensures |Load(d, o, owner)| == |ids|
    ensures forall i :: 0 <= i < |ids| ==> ids[i] in d.rows && Load(d, o, owner)[i] == RefOf(d, ids[i])
  {
    var s, q := RowsOf(d, o, owner), RowRanks(d.rows);
    assert IsOrder(ids, s, q);
    OrderUnique(ids, OrderOf(s, q), s, q);
  }

  predicate Touches(st: Stmt, o: Owner, owner: nat) {
    || (st.LinkAll? && st.owner == o && st.ownerId == owner)
    || (st.DeleteOwner? && st.owner == o && st.ownerId == owner)
  }

  lemma NextOwns(hash: Content -> Sha, m: Machine, st: Stmt, o: Owner, owner: nat, id: Id)
    requires Inv(hash, m) && Allowed(hash, m, st) && !Touches(st, o, owner)
    requires id in m.d.rows && m.d.rows[id].OwnerId(o) == Some(owner)
    ensures id in Next(m, st).d.rows && Follows(m.d.rows[id], Next(m, st).d.rows[id])
  {
    var r := m.d.rows[id];
    assert r.Linked() && RowBacked(m.d, r);
    if st.LinkAll? && LinkRows(m.d.rows, st.owner, st.ownerId, st.ids).Some? {
      LinkRowsKeeps(m.d.rows, st.owner, st.ownerId, st.ids);
    }
    assert id in Next(m, st).d.rows;
    hide Follows, Exec;
    NextFollows(hash, m, st, id);
  }

  lemma NextGainsNone(hash: Content -> Sha, m: Machine, st: Stmt, o: Owner, owner: nat, id: Id)
    requires Inv(hash, m) && Allowed(hash, m, st) && !Touches(st, o, owner)
    requires id in Next(m, st).d.rows && Next(m, st).d.rows[id].OwnerId(o) == Some(owner)
    ensures id in m.d.rows && m.d.rows[id].OwnerId(o) == Some(owner)
  {
    if st.LinkAll? && LinkRows(m.d.rows, st.owner, st.ownerId, st.ids).Some? {
      LinkRowsKeeps(m.d.rows, st.owner, st.ownerId, st.ids);
      if id in st.ids {
        var j :| 0 <= j < |st.ids| && st.ids[j] == id;
      }
    }
  }

  lemma NextCarries(hash: Content -> Sha, m: Machine, st: Stmt, o: Owner, owner: nat, ids: seq<Id>)
    requires Inv(hash, m) && Allowed(hash, m, st)
    requires Carries(m.d, o, owner, ids) && !Touches(st, o, owner)
    ensures Carries(Next(m, st).d, o, owner, ids)
  {
    hide Next, Inv, Allowed, Touches;
    var d' := Next(m, st).d;
    forall i | 0 <= i < |ids|
      ensures ids[i] in d'.rows && d'.rows[ids[i]].OwnerId(o) == Some(owner) && d'.rows[ids[i]].position == i
    {
      NextOwns(hash, m, st, o, owner, ids[i]);
      assert m.d.rows[ids[i]].Linked();
    }
    forall id | id in d'.rows && d'.rows[id].OwnerId(o) == Some(owner) ensures id in ids {
      NextGainsNone(hash, m, st, o, owner, id);
    }
  }

  /** What was linked to an owner is loaded in the order it was sent, through
      every later run that neither links to that owner again nor deletes it. */
  lemma {:induction false} LoadsInOrderSent(
      hash: Content -> Sha, m: Machine, sts: seq<Stmt>, o: Owner, owner: nat, ids: seq<Id>)
    requires Inv(hash, m) && Lawful(hash, m, sts)
    requires Carries(m.d, o, owner, ids)
    requires forall i :: 0 <= i < |sts| ==> !Touches(sts[i], o, owner)
    ensures var d' := Run(m, sts).d;
            && |Load(d', o, owner)| == |ids|
            && forall i :: 0 <= i < |ids| ==> ids[i] in d'.rows && Load(d', o, owner)[i] == RefOf(d', ids[i])
    decreases |sts|
  {
    if sts == [] {
      CarriesLoads(m.d, o, owner, ids);
    } else {
      NextKeepsInv(hash, m, sts[0]);
      NextCarries(hash, m, sts[0], o, owner, ids);
      LoadsInOrderSent(hash, Next(m, sts[0]), sts[1..], o, owner, ids);
    }
  }

  // ---- Banners ------------------------------------------------------------------

  predicate LiveBanner(d: Db, id: Id) {
    id in d.rows && Pinned(d, id) && d.rows[id].Live()
  }

  /** The step takes the row away by intent: a moderator removes it, or the
      message it belongs to is deleted. */
  predicate Takes(st: Stmt, id: Id, r: Row) {
    (st.MarkRemoved? && st.id == id) || (st.DeleteOwner? && r.OwnerId(st.owner) == Some(st.ownerId))
  }

  /** All through the run row `id` is some channel's banner and is not taken away. */
  predicate Undisturbed(m: Machine, sts: seq<Stmt>, id: Id)
    decreases |sts|
  {
    && Pinned(m.d, id)
    && (sts != [] ==>
          && (id in m.d.rows ==> !Takes(sts[0], id, m.d.rows[id]))
          && Undisturbed(Next(m, sts[0]), sts[1..], id))
  }

  /** What a lawful step can do to a live banner: nothing but link it, unless the
      step is the one that expires its bytes. */
  lemma NextKeepsBanner(hash: Content -> Sha, m: Machine, st: Stmt, id: Id)
    requires Inv(hash, m) && Allowed(hash, m, st)
    requires LiveBanner(m.d, id) && !Takes(st, id, m.d.rows[id])
    requires !(st.ExpireRowsOn? && m.d.rows[id].sha == Some(st.sha))
    ensures id in Next(m, st).d.rows
    ensures Next(m, st).d.rows[id].Live() && Next(m, st).d.rows[id].sha == m.d.rows[id].sha
  {
    var r := m.d.rows[id];
    assert RowBacked(m.d, r);
    assert r.Wants(r.sha.value);
    if st.LinkAll? {
      LinkKeepsLive(m.d, st.owner, st.ownerId, st.ids, st.now, id);
    }
  }

  lemma LinkKeepsLive(d: Db, o: Owner, owner: nat, ids: seq<Id>, now: int, id: Id)
    requires id in d.rows && d.rows[id].Live()
    ensures var d' := Exec(d, LinkAll(o, owner, ids, now));
            id in d'.rows && d'.rows[id].Live() && d'.rows[id].sha == d.rows[id].sha
  {
    match LinkRows(d.rows, o, owner, ids) {
      case None =>
      case Some(rs) =>
        LinkRowsKeeps(d.rows, o, owner, ids);
        LinkedLives(d.rows, rs, o, owner, ids, id);
        hide LinkedAs, LinkBlobs, LinkRows;
    }
  }

  lemma LinkedLives(rows: map<Id, Row>, rs: map<Id, Row>, o: Owner, owner: nat, ids: seq<Id>, id: Id)
    requires LinkedAs(rows, rs, o, owner, ids) && id in rows && rows[id].Live()
    ensures id in rs && rs[id].Live() && rs[id].sha == rows[id].sha
  {
    if id in ids {
      var i :| 0 <= i < |ids| && ids[i] == id;
    }
  }

  /** The query names no banner's bytes, so they do not come into the batch. */
  lemma BatchGainsNoBanner(m: Machine, st: Stmt, id: Id)
    requires LiveBanner(m.d, id) && m.d.rows[id].sha.Some? && m.d.rows[id].sha.value !in m.batch
    ensures m.d.rows[id].sha.value !in BatchAfter(m, st)
  {
    assert BannerBlob(m.d, m.d.rows[id].sha.value);
  }

  /** A live banner whose bytes are in no batch is safe in every lawful run. */
  lemma {:induction false} BannerIsSafe(hash: Content -> Sha, m: Machine, sts: seq<Stmt>, id: Id)
    requires Inv(hash, m) && Lawful(hash, m, sts) && Undisturbed(m, sts, id)
    requires LiveBanner(m.d, id) && m.d.rows[id].sha.Some? && m.d.rows[id].sha.value !in m.batch
    ensures LiveBanner(Run(m, sts).d, id) && Run(m, sts).d.rows[id].sha == m.d.rows[id].sha
    decreases |sts|
  {
    if sts != [] {
      NextKeepsBanner(hash, m, sts[0], id);
      BatchGainsNoBanner(m, sts[0], id);
      NextKeepsInv(hash, m, sts[0]);
      hide Inv, Allowed;
      BannerIsSafe(hash, Next(m, sts[0]), sts[1..], id);
    }
  }

  /** How far the lock holder is from idle. */
  function HopsLeft(p: Phase): nat {
    match p
    case Marked(_) => 2
    case Unlinking(left) => |left|
    case _ => 0
  }

  /** A live banner whose bytes are in the batch is expired if the eviction goes
      on undisturbed: it ends the blob in hand, then takes this one. */
  lemma {:induction false} BannerIsTaken(hash: Content -> Sha, m: Machine, id: Id, s: Sha) returns (sts: seq<Stmt>)
    requires Inv(hash, m) && LiveBanner(m.d, id) && m.d.rows[id].sha == Some(s) && s in m.batch
    ensures Lawful(hash, m, sts) && Undisturbed(m, sts, id)
    ensures id in Run(m, sts).d.rows && Run(m, sts).d.rows[id].expired.Some?
    decreases HopsLeft(m.phase)
  {
    var st, rest := ExpireRowsOn(s, 0), [];
    match m.phase {
      case Marked(x) => st := DeleteBlob(x);
      case Unlinking(left) =>
        var x :| x in left;
        st := RemoveFile(x);
      case _ =>
    }
    if !st.ExpireRowsOn? {
      NextKeepsBanner(hash, m, st, id);
      NextKeepsInv(hash, m, st);
      rest := BannerIsTaken(hash, Next(m, st), id, s);
    }
    FirstThen(hash, m, st, rest, id);
    sts := [st] + rest;
  }

  lemma FirstThen(hash: Content -> Sha, m: Machine, st: Stmt, rest: seq<Stmt>, id: Id)
    ensures Run(m, [st] + rest) == Run(Next(m, st), rest)
    ensures Lawful(hash, m, [st] + rest) <==> Allowed(hash, m, st) && Lawful(hash, Next(m, st), rest)
    ensures Undisturbed(m, [st] + rest, id) <==>
            && Pinned(m.d, id) && (id in m.d.rows ==> !Takes(st, id, m.d.rows[id]))
            && Undisturbed(Next(m, st), rest, id)
  {
    hide Next, Allowed, Takes;
    assert ([st] + rest)[0] == st && ([st] + rest)[1..] == rest;
  }

  /** A row that is a live banner now stays live through every lawful run that
      leaves it pinned and does not take it away, exactly when the eviction in
      progress, if any, does not already hold its bytes. */
  lemma BannerStaysIff(hash: Content -> Sha, m: Machine, id: Id)
    requires Inv(hash, m) && LiveBanner(m.d, id)
    ensures m.d.rows[id].sha.Some?
    ensures (forall sts :: Lawful(hash, m, sts) && Undisturbed(m, sts, id) ==> LiveBanner(Run(m, sts).d, id))
            <==> m.d.rows[id].sha.value !in m.batch
  {
    assert RowBacked(m.d, m.d.rows[id]);
    var s := m.d.rows[id].sha.value;
    if s in m.batch {
      var sts := BannerIsTaken(hash, m, id, s);
      assert !LiveBanner(Run(m, sts).d, id);
    } else {
      hide Inv, LiveBanner;
      forall sts | Lawful(hash, m, sts) && Undisturbed(m, sts, id) ensures LiveBanner(Run(m, sts).d, id) {
        BannerIsSafe(hash, m, sts, id);
      }
    }
  }

  /** Between the query that picks what to evict and the statement that expires
      its rows, a channel may take one of those rows as its banner, since that
      takes no lock: whenever the query would return a live row's bytes, there is
      such a run, and at its end the pinned row is expired. */
  lemma PinnedTooLate(hash: Content -> Sha, m: Machine, channel: nat, id: Id, s: Sha)
    requires Inv(hash, m) && m.phase.Idle? && s in NextBatch(m.d)
    requires id in m.d.rows && m.d.rows[id].Wants(s)
    ensures var pin, expire := SetBanner(channel, Some(id)), ExpireRowsOn(s, 1);
            && Lawful(hash, m, [QueryBatch, pin, expire])
            && LiveBanner(Run(m, [QueryBatch, pin]).d, id)
            && var d' := Run(m, [QueryBatch, pin, expire]).d;
               id in d'.rows && Pinned(d', id) && RefOf(d', id).state == Gone
  {
    var pin, expire := SetBanner(channel, Some(id)), ExpireRowsOn(s, 1);
    RaceSteps(hash, m, channel, id, s);
    RunOfThree(hash, m, QueryBatch, pin, expire);
    hide Next, Allowed, Lawful, Run, Inv, NextBatch;
  }

  lemma RaceSteps(hash: Content -> Sha, m: Machine, channel: nat, id: Id, s: Sha)
    requires m.phase.Idle? && s in NextBatch(m.d) && id in m.d.rows && m.d.rows[id].Wants(s)
    ensures var pin, expire := SetBanner(channel, Some(id)), ExpireRowsOn(s, 1);
            var m1 := Next(m, QueryBatch);
            var m2 := Next(m1, pin);
            var m3 := Next(m2, expire);
            && Allowed(hash, m, QueryBatch) && Allowed(hash, m1, pin) && Allowed(hash, m2, expire)
            && LiveBanner(m2.d, id)
            && id in m3.d.rows && Pinned(m3.d, id) && RefOf(m3.d, id).state == Gone
  {
    hide NextBatch;
    assert m.d.banners[channel := id][channel] == id;
  }

  lemma RunOfThree(hash: Content -> Sha, m: Machine, a: Stmt, b: Stmt, c: Stmt)
    ensures Run(m, [a, b]) == Next(Next(m, a), b)
    ensures Run(m, [a, b, c]) == Next(Next(Next(m, a), b), c)
    ensures Lawful(hash, m, [a, b, c]) <==>
            Allowed(hash, m, a) && Allowed(hash, Next(m, a), b) && Allowed(hash, Next(Next(m, a), b), c)
  {
    hide Next, Allowed;
    var m1 := Next(m, a);
    var m2 := Next(m1, b);
    assert [a, b][1..] == [b] && [b][1..] == [] && [a, b, c][1..] == [b, c] && [b, c][1..] == [c] && [c][1..] == [];
    assert Run(m1, [b]) == Run(m2, []) && Run(m2, [c]) == Run(Next(m2, c), []);
    assert Run(m1, [b, c]) == Run(m2, [c]);
    assert Lawful(hash, Next(m2, c), []);
    assert Lawful(hash, m2, [c]) <==> Allowed(hash, m2, c);
    assert Lawful(hash, m1, [b, c]) <==> Allowed(hash, m1, b) && Lawful(hash, m2, [c]);
  }

  /** Such a state exists for every image: it is stored, linked nowhere yet, and the
      store is idle. */
  lemma BannerRace(hash: Content -> Sha, image: Content) returns (m: Machine, id: Id, s: Sha)
    ensures Inv(hash, m) && m.phase.Idle? && m.batch == {} && s in NextBatch(m.d)
    ensures id in m.d.rows && m.d.rows[id].Wants(s)
    ensures s == hash(image) && m.d.files == map[s := image] && s in m.d.blobs
    ensures m.d.blobs[s].image && m.d.blobs[s].size == |image|
  {
    id, s := 0, hash(image);
    var r := Row(Some(s), "banner.webp", 0, 7, false, 0, None, None, None, 0, None, None);
    var b := AttachmentDb.Blob(true, "image/webp", |image|, Some(1), Some(1), 0);
    var d := Db(map[id := r], map[s := b], map[s := image], map[]);
    m := Machine(d, Idle, {}, {id});
    OnlyOneEvictable(d, s);
  }

  lemma OnlyOneEvictable(d: Db, s: Sha)
    requires d.blobs.Keys == {s} && d.banners == map[]
    ensures s in NextBatch(d)
  {
    assert Evictable(d) == {s} by {
      assert forall c :: c in d.banners ==> false;
    }
    var order := EvictionOrder(d);
    OrderLength(order, {s}, EvictionRanks(d.blobs));
    assert order[0] in order;
  }
}
