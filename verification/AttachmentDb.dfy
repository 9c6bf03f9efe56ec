/** The tables behind message attachments, the files on disk, and the SQL
    statements that change them, each as one atomic step on the whole state. */
module AttachmentDb {
  import opened Bytes
  import opened SqlOrder

  /** A blob's key: the SHA-256 digest as a number, so that digests compare as
      their hex texts do. */
  type Sha = nat
  type Id = nat
  type Content = seq<byte>

  const ORPHAN_AFTER_SECS: int := 24 * 3600
  const SECS_PER_DAY: int := 86400
  const BATCH: nat := 32

  datatype Owner = Message | Post | Reply

  /** A row of `attachments`: one upload. */
  datatype Row = Row(
    sha: Option<Sha>, name: string, uploader: nat, channel: nat, asFile: bool, created: int,
    message: Option<nat>, post: Option<nat>, reply: Option<nat>, position: nat,
    removed: Option<int>, expired: Option<int>)
  {
    predicate Live() {
      removed.None? && expired.None?
    }

    predicate Linked() {
      message.Some? || post.Some? || reply.Some?
    }

    function OwnerId(o: Owner): Option<nat> {
      match o
      case Message => message
      case Post => post
      case Reply => reply
    }

    function WithOwner(o: Owner, id: nat, pos: nat): Row {
      match o
      case Message => this.(message := Some(id), position := pos)
      case Post => this.(post := Some(id), position := pos)
      case Reply => this.(reply := Some(id), position := pos)
    }

    /** Live and naming these bytes. */
    predicate Wants(s: Sha) {
      sha == Some(s) && Live()
    }
  }

  /** A row of `attachment_blobs`: one distinct stored file. */
  datatype Blob = Blob(image: bool, mime: string, size: nat, width: Option<nat>, height: Option<nat>, lastLinked: int)

  /** `banners` is `channels.banner_file_id` for the channels that have one. */
  datatype Db = Db(rows: map<Id, Row>, blobs: map<Sha, Blob>, files: map<Sha, Content>, banners: map<nat, Id>)

  // ---- What the queries ask ------------------------------------------------

  predicate Pinned(d: Db, id: Id) {
    id in d.banners.Values
  }

  ghost predicate Wanted(d: Db, s: Sha) {
    exists id :: id in d.rows && d.rows[id].Wants(s)
  }

  /** The blobs no live row names. */
  function Unwanted(d: Db): (r: set<Sha>)
    ensures forall s :: s in r <==> s in d.blobs && !Wanted(d, s)
  {
    set s | s in d.blobs && forall id :: id in d.rows ==> !d.rows[id].Wants(s)
  }

  /** Some channel's banner is a row with these bytes, live or not. */
  predicate BannerBlob(d: Db, s: Sha) {
    exists id :: id in d.rows && Pinned(d, id) && d.rows[id].sha == Some(s)
  }

  function EvictionRanks(blobs: map<Sha, Blob>): (q: map<nat, Rank>)
    ensures q.Keys == blobs.Keys && Ranked(q)
  {
    map s | s in blobs :: Rank(blobs[s].lastLinked, 0, s)
  }

  /** What eviction may take, and the order in which it would. */
  function Evictable(d: Db): set<Sha> {
    set s | s in d.blobs && !BannerBlob(d, s)
  }

  function EvictionOrder(d: Db): (ss: seq<Sha>)
    ensures IsOrder(ss, Evictable(d), EvictionRanks(d.blobs))
  {
    OrderOf(Evictable(d), EvictionRanks(d.blobs))
  }

  /** What the eviction query returns: the first of that order. */
  function NextBatch(d: Db): (ss: seq<Sha>)
    ensures forall s :: s in ss ==> s in Evictable(d)
    ensures ss <= EvictionOrder(d) && |ss| == if |EvictionOrder(d)| <= 32 then |EvictionOrder(d)| else 32
  {
    var order := EvictionOrder(d);
    if |order| <= BATCH then order else order[..BATCH]
  }

  function RowRanks(rows: map<Id, Row>): (q: map<nat, Rank>)
    ensures q.Keys == rows.Keys && Ranked(q)
  {
    map id | id in rows :: Rank(rows[id].position, rows[id].created, id)
  }

  function RowsOf(d: Db, o: Owner, owner: nat): set<Id> {
    set id | id in d.rows && d.rows[id].OwnerId(o) == Some(owner)
  }

  // ---- The statements ------------------------------------------------------

  datatype Stmt =
    | ExpireOld(now: int, before: int)
    | DeleteOrphans(before: int)
    | DeleteUnwanted
    | QueryBatch
    | EndEviction
    | RemoveFile(sha: Sha)
    | ExpireRowsOn(sha: Sha, now: int)
    | DeleteBlob(sha: Sha)
    | WriteFile(sha: Sha, content: Content)
    | UpsertBlob(sha: Sha, blob: Blob)
    | InsertRow(id: Id, row: Row)
    | MarkRemoved(id: Id, now: int)
    | LinkAll(owner: Owner, ownerId: nat, ids: seq<Id>, now: int)
    | SetBanner(channel: nat, banner: Option<Id>)
    | DeleteOwner(owner: Owner, ownerId: nat)

  /** The deletion of blob rows; the foreign key sets `sha256` to NULL on every
      row that named one of them. */
  function DropBlobs(d: Db, ss: set<Sha>): Db {
    d.(blobs := d.blobs - ss,
       rows := map id | id in d.rows ::
         if d.rows[id].sha.Some? && d.rows[id].sha.value in ss then d.rows[id].(sha := None) else d.rows[id])
  }

  function Expired(r: Row, now: int): Row {
    if r.Live() then r.(expired := Some(now)) else r
  }

  function RowsExpiredOn(rows: map<Id, Row>, s: Sha, now: int): map<Id, Row> {
    map id | id in rows :: if rows[id].sha == Some(s) then Expired(rows[id], now) else rows[id]
  }

  function Upserted(held: Option<Blob>, b: Blob): Blob {
    match held
    case None => b
    case Some(o) =>
      o.(lastLinked := b.lastLinked,
         image := b.image || o.image,
         width := if o.width.Some? then o.width else b.width,
         height := if o.height.Some? then o.height else b.height)
  }

  /** One row's UPDATE in `link`: it applies to an unlinked live row or to none. */
  predicate Linkable(rows: map<Id, Row>, id: Id) {
    id in rows && !rows[id].Linked() && rows[id].Live()
  }

  /** The transaction of `link` up to the row `ids[k]`: `None` once an UPDATE
      affected no row, and the transaction then rolls back. */
  function LinkRows(rows: map<Id, Row>, o: Owner, owner: nat, ids: seq<Id>): Option<map<Id, Row>> {
    if ids == [] then Some(rows)
    else
      var k := |ids| - 1;
      match LinkRows(rows, o, owner, ids[..k])
      case None => None
      case Some(rs) =>
        if Linkable(rs, ids[k]) then Some(rs[ids[k] := rs[ids[k]].WithOwner(o, owner, k)]) else None
  }

  predicate NamedBy(rows: map<Id, Row>, ids: seq<Id>, s: Sha) {
    exists i :: 0 <= i < |ids| && ids[i] in rows && rows[ids[i]].sha == Some(s)
  }

  function LinkBlobs(blobs: map<Sha, Blob>, rows: map<Id, Row>, ids: seq<Id>, now: int): map<Sha, Blob> {
    map s | s in blobs :: if NamedBy(rows, ids, s) then blobs[s].(lastLinked := now) else blobs[s]
  }

  function Link(d: Db, o: Owner, owner: nat, ids: seq<Id>, now: int): Option<Db> {
    match LinkRows(d.rows, o, owner, ids)
    case None => None
    case Some(rs) => Some(d.(rows := rs, blobs := LinkBlobs(d.blobs, rs, ids, now)))
  }

  function Exec(d: Db, st: Stmt): Db {
    match st
    case ExpireOld(now, before) =>
      d.(rows := map id | id in d.rows ::
           if d.rows[id].created < before && !Pinned(d, id) then Expired(d.rows[id], now) else d.rows[id])
    case DeleteOrphans(before) =>
      d.(rows := map id | id in d.rows && (d.rows[id].Linked() || d.rows[id].created >= before || Pinned(d, id)) ::
           d.rows[id])
    case DeleteUnwanted => DropBlobs(d, Unwanted(d))
    case QueryBatch => d
    case EndEviction => d
    case RemoveFile(s) => d.(files := d.files - {s})
    case ExpireRowsOn(s, now) => d.(rows := RowsExpiredOn(d.rows, s, now))
    case DeleteBlob(s) => DropBlobs(d, {s})
    case WriteFile(s, content) => d.(files := d.files[s := content])
    case UpsertBlob(s, b) =>
      d.(blobs := d.blobs[s := Upserted(if s in d.blobs then Some(d.blobs[s]) else None, b)])
    case InsertRow(id, r) => d.(rows := d.rows[id := r])
    case MarkRemoved(id, now) =>
      if id !in d.rows then d
      else
        var r := d.rows[id];
        d.(rows := d.rows[id := r.(sha := None, removed := if r.removed.Some? then r.removed else Some(now))])
    case LinkAll(o, owner, ids, now) =>
      (match Link(d, o, owner, ids, now)
       case None => d
       case Some(d') => d')
    case SetBanner(c, banner) =>
      d.(banners := if banner.Some? then d.banners[c := banner.value] else d.banners - {c})
    case DeleteOwner(o, owner) =>
      d.(rows := map id | id in d.rows && d.rows[id].OwnerId(o) != Some(owner) :: d.rows[id])
  }

  // ---- Sizes -----------------------------------------------------------------

  /** `SUM(size_bytes)` over some of the blobs. */
  ghost function SizeOf(blobs: map<Sha, Blob>, ss: set<Sha>): nat
    requires ss <= blobs.Keys
  {
    if ss == {} then 0
    else
      var s :| s in ss;
      blobs[s].size + SizeOf(blobs, ss - {s})
  }

  ghost function Used(d: Db): nat {
    SizeOf(d.blobs, d.blobs.Keys)
  }

  lemma {:induction false} SizeWithout(blobs: map<Sha, Blob>, ss: set<Sha>, s: Sha)
    requires ss <= blobs.Keys && s in ss
    ensures SizeOf(blobs, ss) == blobs[s].size + SizeOf(blobs, ss - {s})
    decreases |ss|
  {
    var p :| p in ss && SizeOf(blobs, ss) == blobs[p].size + SizeOf(blobs, ss - {p});
    if p != s {
      SizeWithout(blobs, ss - {p}, s);
      SizeWithout(blobs, ss - {s}, p);
      assert ss - {p} - {s} == ss - {s} - {p};
    }
  }

  lemma {:induction false} SizeSame(a: map<Sha, Blob>, b: map<Sha, Blob>, ss: set<Sha>)
    requires ss <= a.Keys && ss <= b.Keys
    requires forall s :: s in ss ==> a[s].size == b[s].size
    ensures SizeOf(a, ss) == SizeOf(b, ss)
    decreases |ss|
  {
    if ss != {} {
      var s :| s in ss;
      SizeWithout(a, ss, s);
      SizeWithout(b, ss, s);
      SizeSame(a, b, ss - {s});
    }
  }

  /** Nothing is lost in the accounting: what goes and what stays add up. */
  lemma {:induction false} SizeSplit(blobs: map<Sha, Blob>, ss: set<Sha>, gone: set<Sha>)
    requires gone <= ss <= blobs.Keys
    ensures SizeOf(blobs, ss) == SizeOf(blobs, gone) + SizeOf(blobs, ss - gone)
    decreases |gone|
  {
    if gone == {} {
      assert ss - gone == ss;
    } else {
      var s :| s in gone;
      SizeWithout(blobs, ss, s);
      SizeWithout(blobs, gone, s);
      SizeSplit(blobs, ss - {s}, gone - {s});
      assert ss - {s} - (gone - {s}) == ss - gone;
    }
  }

  lemma UsedAfterDrop(d: Db, gone: set<Sha>)
    requires gone <= d.blobs.Keys
    ensures Used(d) == SizeOf(d.blobs, gone) + Used(DropBlobs(d, gone))
  {
    var kept := d.blobs.Keys - gone;
    SizeSplit(d.blobs, d.blobs.Keys, gone);
    assert (d.blobs - gone).Keys == kept;
    SizeSame(d.blobs, d.blobs - gone, kept);
  }

  // ---- What a reader is shown -------------------------------------------------

  datatype State = Ok | Removed | Gone

  datatype Ref = Ref(id: Id, name: string, mime: string, inline: bool, size: nat,
                     width: Option<nat>, height: Option<nat>, state: State)

  /** A row LEFT JOINed to its blob, as the reader's record. */
  function IntoRef(id: Id, r: Row, b: Option<Blob>): Ref {
    var state := if r.removed.Some? then Removed
                 else if r.expired.Some? || r.sha.None? || b.None? then Gone
                 else Ok;
    if state == Ok then
      Ref(id, r.name, b.value.mime, b.value.image && !r.asFile, b.value.size, b.value.width, b.value.height, state)
    else
      Ref(id, r.name, "application/octet-stream", false, 0, None, None, state)
  }

  function JoinBlob(d: Db, r: Row): Option<Blob> {
    if r.sha.Some? && r.sha.value in d.blobs then Some(d.blobs[r.sha.value]) else None
  }

  function RefOf(d: Db, id: Id): Ref
    requires id in d.rows
  {
    IntoRef(id, d.rows[id], JoinBlob(d, d.rows[id]))
  }

  /** The attachments of one owner, in the order of `load`. */
  function Load(d: Db, o: Owner, owner: nat): seq<Ref> {
    var ids := OrderOf(RowsOf(d, o, owner), RowRanks(d.rows));
    seq(|ids|, i requires 0 <= i < |ids| => RefOf(d, ids[i]))
  }

  datatype Served = NotFound | IsGone(state: State) | Bytes(content: Content, inline: bool)

  function Serve(d: Db, id: Id): Served {
    if id !in d.rows then NotFound
    else
      var a := RefOf(d, id);
      if a.state != Ok then IsGone(a.state)
      else if d.rows[id].sha.value in d.files then Bytes(d.files[d.rows[id].sha.value], a.inline)
      else NotFound
  }
}
