/** Port allocation for the hubs of a farm. */
module HubPorts {
  import opened Bytes

  type Id = nat

  /** A row of `hubs`. */
  datatype Row = Row(http: Option<u16>, voice: Option<u16>, suspended: bool, deleted: bool)

  /** The rows, and the ports of the child processes that run. */
  datatype Farm = Farm(rows: map<Id, Row>, running: map<Id, (u16, u16)>)

  // ---- The first gap ---------------------------------------------------------------

  /** The least free port at or above `base`; `None` when every port up to 65535
      is taken and the counter would overflow. */
  method FirstGap(base: u16, occupied: set<u16>) returns (r: Option<u16>)
    ensures r.Some? ==> base <= r.value && r.value !in occupied && forall p: u16 :: base <= p < r.value ==> p in occupied
    ensures r.None? ==> forall p: u16 :: base <= p ==> p in occupied
    ensures r == Gap(base, occupied)
  {
    var port: int := base;
    while port in occupied
      invariant base <= port < 0x1_0000
      invariant forall p: u16 :: base <= p < port ==> p in occupied
      invariant Gap(base, occupied) == Gap(port, occupied)
      decreases 0x1_0000 - port
    {
      if port == 0xFFFF {
        return None;
      }
      port := port + 1;
    }
    return Some(port);
  }

  function Gap(base: u16, occupied: set<u16>): (r: Option<u16>)
    ensures r.Some? ==> base <= r.value && r.value !in occupied
    decreases 0x1_0000 - base
  {
    if base !in occupied then Some(base) else if base == 0xFFFF then None else Gap(base + 1, occupied)
  }

  // ---- What is taken -----------------------------------------------------------------

  function Existing(rows: map<Id, Row>): (ids: set<Id>)
    ensures ids <= rows.Keys
  {
    set id | id in rows && !rows[id].deleted
  }

  function HttpOf(rows: map<Id, Row>, ids: set<Id>): set<u16> {
    set id | id in ids && id in rows && rows[id].http.Some? :: rows[id].http.value
  }

  function VoiceOf(rows: map<Id, Row>, ids: set<Id>): set<u16> {
    set id | id in ids && id in rows && rows[id].voice.Some? :: rows[id].voice.value
  }

  function RunningHttp(running: map<Id, (u16, u16)>): set<u16> {
    set id | id in running :: running[id].0
  }

  function RunningVoice(running: map<Id, (u16, u16)>): set<u16> {
    set id | id in running :: running[id].1
  }

  function HttpTaken(f: Farm): set<u16> {
    RunningHttp(f.running) + HttpOf(f.rows, Existing(f.rows))
  }

  function VoiceTaken(f: Farm): set<u16> {
    RunningVoice(f.running) + VoiceOf(f.rows, Existing(f.rows))
  }

  /** A running child has the port, or a row that is not deleted. */
  ghost predicate HttpHeld(f: Farm, p: u16) {
    || (exists id :: id in f.running && f.running[id].0 == p)
    || (exists id :: id in f.rows && !f.rows[id].deleted && f.rows[id].http == Some(p))
  }

  ghost predicate VoiceHeld(f: Farm, p: u16) {
    || (exists id :: id in f.running && f.running[id].1 == p)
    || (exists id :: id in f.rows && !f.rows[id].deleted && f.rows[id].voice == Some(p))
  }

  lemma TakenIsHeld(f: Farm, p: u16)
    ensures p in HttpTaken(f) <==> HttpHeld(f, p)
    ensures p in VoiceTaken(f) <==> VoiceHeld(f, p)
  {
    if id :| id in f.rows && !f.rows[id].deleted && f.rows[id].http == Some(p) {
      assert id in Existing(f.rows) && f.rows[id].http.value == p;
    }
    if id :| id in f.rows && !f.rows[id].deleted && f.rows[id].voice == Some(p) {
      assert id in Existing(f.rows) && f.rows[id].voice.value == p;
    }
  }

  lemma TakenAreHeld(f: Farm)
    ensures forall p :: p in HttpTaken(f) <==> HttpHeld(f, p)
    ensures forall p :: p in VoiceTaken(f) <==> VoiceHeld(f, p)
  {
    forall p: u16
      ensures p in HttpTaken(f) <==> HttpHeld(f, p)
      ensures p in VoiceTaken(f) <==> VoiceHeld(f, p)
    {
      TakenIsHeld(f, p);
    }
  }

  lemma NoneYet(rows: map<Id, Row>)
    ensures HttpOf(rows, {}) == {} && VoiceOf(rows, {}) == {}
  {
  }

  lemma OneMore(rows: map<Id, Row>, http: set<u16>, voice: set<u16>, ids: set<Id>, id: Id)
    requires id in rows
    ensures http + HttpOf(rows, ids + {id}) ==
            (http + HttpOf(rows, ids)) + if rows[id].http.Some? then {rows[id].http.value} else {}
    ensures voice + VoiceOf(rows, ids + {id}) ==
            (voice + VoiceOf(rows, ids)) + if rows[id].voice.Some? then {rows[id].voice.value} else {}
  {
  }

  lemma MoveOver(done: set<Id>, left: set<Id>, id: Id)
    requires id in left
    ensures (done + {id}) + (left - {id}) == done + left
  {
  }

  /** No two hubs that exist share a port. */
  predicate NoCollision(f: Farm) {
    forall a, b :: a in f.rows && b in f.rows && a != b && !f.rows[a].deleted && !f.rows[b].deleted ==>
      && (f.rows[a].http.Some? ==> f.rows[b].http != f.rows[a].http)
      && (f.rows[a].voice.Some? ==> f.rows[b].voice != f.rows[a].voice)
  }

  // ---- The operations ------------------------------------------------------------------

  datatype Bases = Bases(http: u16, voice: u16)

  /** Runs the hub's process if it can be started; the map then holds its ports. */
  function Spawned(f: Farm, id: Id, http: u16, voice: u16, starts: bool): Farm {
    if starts then f.(running := f.running[id := (http, voice)]) else f
  }

  function Stopped(f: Farm, id: Id): Farm {
    f.(running := f.running - {id})
  }

  /** A new row, no ports yet. */
  function Created(f: Farm, id: Id): Farm {
    if id in f.rows then f else f.(rows := f.rows[id := Row(None, None, false, false)])
  }

  function AllocatedAndSpawned(f: Farm, bases: Bases, id: Id, starts: bool): Farm {
    match (Gap(bases.http, HttpTaken(f)), Gap(bases.voice, VoiceTaken(f)))
    case (Some(p), Some(v)) =>
      var g := if id in f.rows then f.(rows := f.rows[id := f.rows[id].(http := Some(p), voice := Some(v))]) else f;
      Spawned(g, id, p, v, starts)
    case _ => f
  }

  /** `resolve_voice_port`: the persisted voice port, or a fresh one persisted. */
  function VoiceResolved(f: Farm, bases: Bases, id: Id): Farm
    requires id in f.rows
  {
    if f.rows[id].voice.Some? then f
    else
      match Gap(bases.voice, VoiceTaken(f))
      case None => f
      case Some(v) => f.(rows := f.rows[id := f.rows[id].(voice := Some(v))])
  }

  predicate Startable(r: Row) {
    !r.suspended && !r.deleted && r.http.Some?
  }

  /** A restart, of a suspended hub too: the voice port is settled first, then the
      child is stopped and run again on the row's ports. */
  function Restarted(f: Farm, bases: Bases, id: Id, starts: bool): Farm {
    if id in f.rows && !f.rows[id].deleted && f.rows[id].http.Some? then
      var g := VoiceResolved(f, bases, id);
      if g.rows[id].voice.Some? then
        Spawned(Stopped(g, id), id, g.rows[id].http.value, g.rows[id].voice.value, starts)
      else g
    else f
  }

  /** One row of the start-up pass. */
  function Revived(f: Farm, bases: Bases, id: Id, starts: bool): Farm {
    if id in f.rows && Startable(f.rows[id]) then
      var g := VoiceResolved(f, bases, id);
      if g.rows[id].voice.Some? then Spawned(g, id, g.rows[id].http.value, g.rows[id].voice.value, starts) else g
    else f
  }

  function AllRevived(f: Farm, bases: Bases, ids: seq<Id>, starts: Id -> bool): Farm {
    if ids == [] then f
    else Revived(AllRevived(f, bases, ids[..|ids| - 1], starts), bases, ids[|ids| - 1], starts(ids[|ids| - 1]))
  }

  /** What can happen to a farm whose hubs run on it. */
  datatype Op =
    | Create(id: Id)
    | AllocateAndSpawn(id: Id, starts: bool)
    | SpawnAll(ids: seq<Id>, startsAll: Id -> bool)
    | Restart(id: Id, starts: bool)
    | FillVoice(id: Id)
    | Suspend(id: Id)
    | Resume(id: Id)
    | Delete(id: Id)
    | Exit(id: Id)
    | AgentStopped(id: Id)

  function Apply(f: Farm, bases: Bases, op: Op): Farm {
    match op
    case Create(id) => Created(f, id)
    case AllocateAndSpawn(id, starts) => AllocatedAndSpawned(f, bases, id, starts)
    case SpawnAll(ids, starts) => AllRevived(f, bases, ids, starts)
    case Restart(id, starts) => Restarted(f, bases, id, starts)
    case FillVoice(id) => if id in f.rows then VoiceResolved(f, bases, id) else f
    case Suspend(id) => if id in f.rows then f.(rows := f.rows[id := f.rows[id].(suspended := true)]) else f
    case Resume(id) => if id in f.rows then f.(rows := f.rows[id := f.rows[id].(suspended := false)]) else f
    case Delete(id) =>
      var g := Stopped(f, id);
      if id in g.rows then g.(rows := g.rows[id := g.rows[id].(deleted := true)]) else g
    case Exit(id) => Stopped(f, id)
    case AgentStopped(id) =>
      if id in f.rows then f.(rows := f.rows[id := f.rows[id].(http := None, voice := None)]) else f
  }

  function Run(f: Farm, bases: Bases, ops: seq<Op>): Farm
    decreases |ops|
  {
    if ops == [] then f else Run(Apply(f, bases, ops[0]), bases, ops[1..])
  }

  lemma TakenHolds(f: Farm, id: Id)
    requires id in f.rows && !f.rows[id].deleted
    ensures f.rows[id].http.Some? ==> f.rows[id].http.value in HttpTaken(f)
    ensures f.rows[id].voice.Some? ==> f.rows[id].voice.value in VoiceTaken(f)
  {
  }

  lemma AllocatedKeeps(f: Farm, bases: Bases, id: Id, starts: bool)
    requires NoCollision(f)
    ensures NoCollision(AllocatedAndSpawned(f, bases, id, starts))
  {
    forall x | x in f.rows && !f.rows[x].deleted
      ensures f.rows[x].http.Some? ==> f.rows[x].http.value in HttpTaken(f)
      ensures f.rows[x].voice.Some? ==> f.rows[x].voice.value in VoiceTaken(f)
    {
      TakenHolds(f, x);
    }
    hide HttpTaken, VoiceTaken, Gap;
  }

  lemma ResolvedKeeps(f: Farm, bases: Bases, id: Id)
    requires NoCollision(f) && id in f.rows
    ensures NoCollision(VoiceResolved(f, bases, id))
  {
    forall x | x in f.rows && !f.rows[x].deleted
      ensures f.rows[x].voice.Some? ==> f.rows[x].voice.value in VoiceTaken(f)
    {
      TakenHolds(f, x);
    }
    hide HttpTaken, VoiceTaken, Gap;
  }

  lemma RevivedKeeps(f: Farm, bases: Bases, id: Id, starts: bool)
    requires NoCollision(f)
    ensures NoCollision(Revived(f, bases, id, starts))
  {
    if id in f.rows && Startable(f.rows[id]) {
      ResolvedKeeps(f, bases, id);
    }
  }

  lemma {:induction false} AllRevivedKeeps(f: Farm, bases: Bases, ids: seq<Id>, starts: Id -> bool)
    requires NoCollision(f)
    ensures NoCollision(AllRevived(f, bases, ids, starts))
    decreases |ids|
  {
    if ids != [] {
      var k := |ids| - 1;
      AllRevivedKeeps(f, bases, ids[..k], starts);
      RevivedKeeps(AllRevived(f, bases, ids[..k], starts), bases, ids[k], starts(ids[k]));
    }
  }

  lemma ApplyKeeps(f: Farm, bases: Bases, op: Op)
    requires NoCollision(f)
    ensures NoCollision(Apply(f, bases, op))
  {
    match op {
      case AllocateAndSpawn(id, starts) => AllocatedKeeps(f, bases, id, starts);
      case SpawnAll(ids, starts) => AllRevivedKeeps(f, bases, ids, starts);
      case Restart(id, starts) =>
        if id in f.rows {
          ResolvedKeeps(f, bases, id);
        }
      case FillVoice(id) =>
        if id in f.rows {
          ResolvedKeeps(f, bases, id);
        }
      case _ =>
    }
    hide AllocatedAndSpawned, AllRevived, VoiceResolved, Gap;
  }

  /** In every run of creations, start-up passes, restarts, suspensions,
      resumptions and deletions of hubs on the farm itself no two existing hubs
      share a port. */
  lemma {:induction false} RunKeepsPortsApart(f: Farm, bases: Bases, ops: seq<Op>)
    requires NoCollision(f)
    ensures NoCollision(Run(f, bases, ops))
    decreases |ops|
  {
    if ops != [] {
      ApplyKeeps(f, bases, ops[0]);
      hide Apply, NoCollision;
      RunKeepsPortsApart(Apply(f, bases, ops[0]), bases, ops[1..]);
    }
  }

  /** The step neither deletes or stops hub `id` nor hands it new ports. */
  predicate LeavesAlone(op: Op, id: Id) {
    && (op.AllocateAndSpawn? ==> op.id != id)
    && (op.Delete? ==> op.id != id)
    && (op.AgentStopped? ==> op.id != id)
  }

  lemma {:induction false} RevivedKeepsPorts(f: Farm, bases: Bases, ids: seq<Id>, starts: Id -> bool, id: Id)
    requires id in f.rows && f.rows[id].http.Some? && f.rows[id].voice.Some?
    ensures id in AllRevived(f, bases, ids, starts).rows && AllRevived(f, bases, ids, starts).rows[id] == f.rows[id]
    decreases |ids|
  {
    if ids != [] {
      RevivedKeepsPorts(f, bases, ids[..|ids| - 1], starts, id);
    }
  }

  /** A suspended hub keeps its ports through every run that does not delete or
      stop it or hand it new ones. */
  lemma {:induction false} PortsAreKept(f: Farm, bases: Bases, ops: seq<Op>, id: Id)
    requires id in f.rows && f.rows[id].http.Some? && f.rows[id].voice.Some?
    requires forall i :: 0 <= i < |ops| ==> LeavesAlone(ops[i], id)
    ensures var g := Run(f, bases, ops);
            id in g.rows && g.rows[id].http == f.rows[id].http && g.rows[id].voice == f.rows[id].voice
    decreases |ops|
  {
    if ops != [] {
      if ops[0].SpawnAll? {
        RevivedKeepsPorts(f, bases, ops[0].ids, ops[0].startsAll, id);
      }
      PortsAreKept(Apply(f, bases, ops[0]), bases, ops[1..], id);
    }
  }

  // ---- Who runs afterwards ---------------------------------------------------------------

  /** Of the hubs returned by the query those that are there, neither suspended nor
      deleted, and have a port are run on their ports, if they start; all others
      are as they were. A voice port is filled in where there was none. */
  predicate StartedUp(f: Farm, g: Farm, ids: seq<Id>, starts: Id -> bool, id: Id) {
    var up := id in ids && id in f.rows && !f.rows[id].suspended && !f.rows[id].deleted && f.rows[id].http.Some?;
    && (id in g.rows <==> id in f.rows)
    && (id in f.rows ==> g.rows[id] == f.rows[id] || (up && f.rows[id].voice.None? && g.rows[id].(voice := None) == f.rows[id]))
    && (if up && starts(id) && g.rows[id].voice.Some?
        then id in g.running && g.running[id] == (f.rows[id].http.value, g.rows[id].voice.value)
        else (id in g.running <==> id in f.running) && (id in f.running ==> g.running[id] == f.running[id]))
  }

  lemma {:induction false} StartUpMeans(f: Farm, bases: Bases, ids: seq<Id>, starts: Id -> bool, id: Id)
    ensures StartedUp(f, AllRevived(f, bases, ids, starts), ids, starts, id)
    decreases |ids|
  {
    if ids != [] {
      var k := |ids| - 1;
      StartUpMeans(f, bases, ids[..k], starts, id);
      assert ids == ids[..k] + [ids[k]];
      hide Gap, VoiceTaken;
    }
  }

  /** A restart stops the child and runs it again on the row's ports, suspended or
      not; without a port, or deleted, nothing happens; and nobody else is
      touched. A child that exits is gone from the map, and a deleted hub's is
      stopped. */
  lemma RestartMeans(f: Farm, bases: Bases, id: Id, starts: bool)
    ensures var g := Apply(f, bases, Op.Restart(id, starts));
            && (id in f.rows && !f.rows[id].deleted && f.rows[id].http.Some? ==>
                  && id in g.rows && g.rows[id].http == f.rows[id].http
                  && (f.rows[id].voice.Some? ==> g.rows[id] == f.rows[id])
                  && (g.rows[id].voice.Some? ==>
                        if starts then id in g.running && g.running[id] == (g.rows[id].http.value, g.rows[id].voice.value)
                        else id !in g.running))
            && (id !in f.rows || f.rows[id].deleted || f.rows[id].http.None? ==> g == f)
            && g.running - {id} == f.running - {id} && g.rows - {id} == f.rows - {id}
    ensures Apply(f, bases, Exit(id)) == f.(running := f.running - {id})
    ensures var g := Apply(f, bases, Op.Delete(id));
            id !in g.running && g.running == f.running - {id} && (id in f.rows ==> id in g.rows && g.rows[id].deleted)
  {
    hide Gap, VoiceTaken;
  }

  /** A suspended hub is not started with the others; once resumed it is. */
  lemma SuspendedStaysDown(f: Farm, bases: Bases, ids: seq<Id>, starts: Id -> bool, id: Id)
    requires id in f.rows && id in ids && starts(id) && !f.rows[id].deleted && f.rows[id].http.Some? && f.rows[id].voice.Some?
    ensures var down := AllRevived(Apply(f, bases, Suspend(id)), bases, ids, starts);
            (id in down.running <==> id in f.running) && (id in f.running ==> down.running[id] == f.running[id])
    ensures var up := AllRevived(Apply(Apply(f, bases, Suspend(id)), bases, Resume(id)), bases, ids, starts);
            id in up.running && up.running[id] == (f.rows[id].http.value, f.rows[id].voice.value)
  {
    var s := Apply(f, bases, Suspend(id));
    StartUpMeans(s, bases, ids, starts, id);
    StartUpMeans(Apply(s, bases, Resume(id)), bases, ids, starts, id);
    hide AllRevived;
  }

  /** The ports of a hub that is deleted, or that an agent has stopped, are free
      again, and the child of the first no longer runs. */
  lemma PortsAreFreed(f: Farm, bases: Bases, id: Id, p: u16)
    requires NoCollision(f) && id in f.rows && !f.rows[id].deleted && f.rows[id].http == Some(p)
    requires forall x :: x in f.running && x != id ==> f.running[x].0 != p
    ensures !HttpHeld(Apply(f, bases, Delete(id)), p)
    ensures id !in f.running ==> !HttpHeld(Apply(f, bases, AgentStopped(id)), p)
  {
  }

  // ---- The manager --------------------------------------------------------------------------

  class HubManager {
    var rows: map<Id, Row>
    var running: map<Id, (u16, u16)>
    const bases: Bases

    constructor (bases: Bases)
      ensures View() == Farm(map[], map[]) && this.bases == bases
    {
      this.bases := bases;
      rows, running := map[], map[];
    }

    function View(): Farm
      reads this
    {
      Farm(rows, running)
    }

    /** Every port handed out: to a running child, or on a row that still exists. */
    method OccupiedPorts() returns (http: set<u16>, voice: set<u16>)
      ensures http == HttpTaken(View()) && voice == VoiceTaken(View())
      ensures forall p :: p in http <==> HttpHeld(View(), p)
      ensures forall p :: p in voice <==> VoiceHeld(View(), p)
    {
      TakenAreHeld(View());
      hide HttpHeld, VoiceHeld, RunningHttp, RunningVoice, HttpOf, VoiceOf, Existing;
      http, voice := RunningHttp(running), RunningVoice(running);
      ghost var http0, voice0 := http, voice;
      var table := rows;
      var left := Existing(table);
      ghost var done: set<Id> := {};
      NoneYet(table);
      assert http0 + {} == http0 && voice0 + {} == voice0;
      while left != {}
        invariant left <= table.Keys && done + left == Existing(table)
        invariant http == http0 + HttpOf(table, done)
        invariant voice == voice0 + VoiceOf(table, done)
        decreases |left|
      {
        var id :| id in left;
        OneMore(table, http0, voice0, done, id);
        MoveOver(done, left, id);
        if table[id].http.Some? {
          http := http + {table[id].http.value};
        }
        if table[id].voice.Some? {
          voice := voice + {table[id].voice.value};
        }
        left, done := left - {id}, done + {id};
      }
      assert done == Existing(table);
    }

    method AllocatePort() returns (p: Option<u16>)
      ensures p == Gap(bases.http, HttpTaken(View()))
      ensures p.Some? ==> p.value !in HttpTaken(View())
    {
      var http, _ := OccupiedPorts();
      p := FirstGap(bases.http, http);
    }

    method AllocateVoicePort() returns (p: Option<u16>)
      ensures p == Gap(bases.voice, VoiceTaken(View()))
      ensures p.Some? ==> p.value !in VoiceTaken(View())
    {
      var _, voice := OccupiedPorts();
      p := FirstGap(bases.voice, voice);
    }

    method AllocateAndSpawn(id: Id, starts: bool) returns (ports: Option<(u16, u16)>)
      modifies this
      ensures View() == Apply(old(View()), bases, Op.AllocateAndSpawn(id, starts))
      ensures NoCollision(old(View())) ==> NoCollision(View())
      ensures ports.Some? && id in rows ==> rows[id].http == Some(ports.value.0) && rows[id].voice == Some(ports.value.1)
    {
      if NoCollision(View()) { AllocatedKeeps(View(), bases, id, starts); }
      hide HttpTaken, VoiceTaken, Gap, NoCollision;
      var p := AllocatePort();
      if p.None? {
        return None;
      }
      var v := AllocateVoicePort();
      if v.None? {
        return None;
      }
      if id in rows {
        rows := rows[id := rows[id].(http := p, voice := v)];
      }
      if starts {
        running := running[id := (p.value, v.value)];
      }
      ports := Some((p.value, v.value));
    }

    method ResolveVoicePort(id: Id) returns (v: Option<u16>)
      requires id in rows
      modifies this
      ensures View() == VoiceResolved(old(View()), bases, id)
      ensures id in rows && v == rows[id].voice
    {
      hide HttpTaken, VoiceTaken, Gap;
      v := rows[id].voice;
      if v.None? {
        v := AllocateVoicePort();
        if v.Some? {
          rows := rows[id := rows[id].(voice := v)];
        }
      }
    }

    /** The start-up pass, in the order the query returned the hubs. */
    method SpawnAllFromDb(ids: seq<Id>, starts: Id -> bool)
      modifies this
      ensures View() == Apply(old(View()), bases, Op.SpawnAll(ids, starts))
      ensures NoCollision(old(View())) ==> NoCollision(View())
      ensures forall id :: StartedUp(old(View()), View(), ids, starts, id)
    {
      forall id {
        StartUpMeans(View(), bases, ids, starts, id);
      }
      hide StartedUp;
      if NoCollision(View()) { AllRevivedKeeps(View(), bases, ids, starts); }
      hide NoCollision, VoiceResolved;
      var i := 0;
      while i < |ids|
        invariant i <= |ids| && View() == AllRevived(old(View()), bases, ids[..i], starts)
      {
        assert ids[..i + 1][..i] == ids[..i];
        var id := ids[i];
        if id in rows && Startable(rows[id]) {
          var voice := ResolveVoicePort(id);
          if voice.Some? && rows[id].http.Some? && starts(id) {
            running := running[id := (rows[id].http.value, voice.value)];
          }
        }
        i := i + 1;
      }
      assert ids[..i] == ids;
    }
  }
}
