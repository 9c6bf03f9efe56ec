/** Ports are picked from what is taken and written to the row later: by the farm
    itself a moment later, for a hub on an agent once the agent has replied. What
    comes in between decides whether ports stay apart. */
module PortPicks {
  import opened Bytes
  import opened HubPorts

  /** The ports picked for hubs whose rows do not have them yet. */
  datatype State = State(f: Farm, http: map<Id, u16>, voice: map<Id, u16>)

  /** What a confirmation writes to the row: both ports, the HTTP port with the
      voice port set to NULL (an older agent's reply), or a missing voice port. */
  datatype Write = Both(http: u16, voice: u16) | HttpOnly(http: u16) | VoiceOnly(voice: u16)

  datatype Move =
    | Local(op: Op)
    | PickHttp(id: Id)
    | PickVoice(id: Id)
    | Confirm(id: Id)
    | ConfirmHttp(id: Id)
    | ConfirmVoice(id: Id)
    | Start(id: Id)

  function Ported(r: Row, w: Write): Row {
    match w
    case Both(p, v) => r.(http := Some(p), voice := Some(v))
    case HttpOnly(p) => r.(http := Some(p), voice := None)
    case VoiceOnly(v) => r.(voice := Some(v))
  }

  function Written(f: Farm, id: Id, w: Write): Farm {
    if id in f.rows then f.(rows := f.rows[id := Ported(f.rows[id], w)]) else f
  }

  /** What the move writes, if it is a confirmation of ports that were picked. */
  function WriteOf(s: State, mv: Move): Option<Write> {
    match mv
    case Confirm(id) => if id in s.http && id in s.voice then Some(Both(s.http[id], s.voice[id])) else None
    case ConfirmHttp(id) => if id in s.http then Some(HttpOnly(s.http[id])) else None
    case ConfirmVoice(id) => if id in s.voice then Some(VoiceOnly(s.voice[id])) else None
    case _ => None
  }

  /** The child runs on the row's ports. */
  function Launched(f: Farm, id: Id): Farm {
    if id in f.rows && f.rows[id].http.Some? && f.rows[id].voice.Some? then
      Spawned(f, id, f.rows[id].http.value, f.rows[id].voice.value, true)
    else f
  }

  function Moved(s: State, bases: Bases, mv: Move): State {
    match mv
    case Local(op) => s.(f := Apply(s.f, bases, op))
    case PickHttp(id) =>
      (match Gap(bases.http, HttpTaken(s.f))
       case None => s
       case Some(p) => s.(http := s.http[id := p]))
    case PickVoice(id) =>
      (match Gap(bases.voice, VoiceTaken(s.f))
       case None => s
       case Some(v) => s.(voice := s.voice[id := v]))
    case Start(id) => s.(f := Launched(s.f, id))
    case _ =>
      (match WriteOf(s, mv)
       case None => s
       case Some(w) => State(Written(s.f, mv.id, w), s.http - {mv.id}, s.voice - {mv.id}))
  }

  function MovedAll(s: State, bases: Bases, mvs: seq<Move>): State
    decreases |mvs|
  {
    if mvs == [] then s else MovedAll(Moved(s, bases, mvs[0]), bases, mvs[1..])
  }

  predicate Exists(f: Farm, id: Id) {
    id in f.rows && !f.rows[id].deleted
  }

  predicate HttpUnheld(f: Farm, id: Id, p: u16) {
    forall x :: x in f.rows && Exists(f, x) && x != id ==> f.rows[x].http != Some(p)
  }

  predicate VoiceUnheld(f: Farm, id: Id, v: u16) {
    forall x :: x in f.rows && Exists(f, x) && x != id ==> f.rows[x].voice != Some(v)
  }

  /** No other existing hub holds a port that is written. */
  predicate Unheld(f: Farm, id: Id, w: Write) {
    match w
    case Both(p, v) => HttpUnheld(f, id, p) && VoiceUnheld(f, id, v)
    case HttpOnly(p) => HttpUnheld(f, id, p)
    case VoiceOnly(v) => VoiceUnheld(f, id, v)
  }

  /** A confirmation keeps ports apart exactly when no other existing hub has taken
      one of them since they were picked. */
  lemma WriteKeepsIff(f: Farm, id: Id, w: Write)
    requires NoCollision(f) && Exists(f, id)
    ensures NoCollision(Written(f, id, w)) <==> Unheld(f, id, w)
  {
    var g := Written(f, id, w);
    assert forall x :: x in f.rows && x != id ==> g.rows[x] == f.rows[x];
    assert !g.rows[id].deleted;
    if NoCollision(g) {
      forall x | x in f.rows && Exists(f, x) && x != id
        ensures !w.VoiceOnly? ==> f.rows[x].http != Some(w.http)
        ensures !w.HttpOnly? ==> f.rows[x].voice != Some(w.voice)
      {
        assert !g.rows[x].deleted;
      }
    }
  }

  /** What a confirmation leaves on the row: the ports that were picked for it; an agent
      that reports no voice port leaves none. */
  lemma ConfirmedPorts(s: State, bases: Bases, id: Id)
    requires id in s.f.rows && id in s.http && id in s.voice
    ensures var r := Moved(s, bases, Confirm(id)).f.rows;
            id in r && r[id] == s.f.rows[id].(http := Some(s.http[id]), voice := Some(s.voice[id])) && r - {id} == s.f.rows - {id}
    ensures var r := Moved(s, bases, ConfirmHttp(id)).f.rows;
            id in r && r[id] == s.f.rows[id].(http := Some(s.http[id]), voice := None) && r - {id} == s.f.rows - {id}
    ensures var r := Moved(s, bases, ConfirmVoice(id)).f.rows;
            id in r && r[id] == s.f.rows[id].(voice := Some(s.voice[id])) && r - {id} == s.f.rows - {id}
  {
  }

  // ---- Runs ------------------------------------------------------------------------------

  /** Ports are apart now and after every move. */
  predicate AlwaysApart(s: State, bases: Bases, mvs: seq<Move>)
    decreases |mvs|
  {
    NoCollision(s.f) && (mvs != [] ==> AlwaysApart(Moved(s, bases, mvs[0]), bases, mvs[1..]))
  }

  /** If this confirms ports for a hub that exists, they are still unheld. */
  predicate Fresh(s: State, mv: Move) {
    WriteOf(s, mv).Some? && Exists(s.f, mv.id) ==> Unheld(s.f, mv.id, WriteOf(s, mv).value)
  }

  predicate AllFresh(s: State, bases: Bases, mvs: seq<Move>)
    decreases |mvs|
  {
    mvs != [] ==> Fresh(s, mvs[0]) && AllFresh(Moved(s, bases, mvs[0]), bases, mvs[1..])
  }

  lemma MoveKeepsIff(s: State, bases: Bases, mv: Move)
    requires NoCollision(s.f)
    ensures NoCollision(Moved(s, bases, mv).f) <==> Fresh(s, mv)
  {
    if mv.Local? {
      ApplyKeeps(s.f, bases, mv.op);
    } else if WriteOf(s, mv).Some? && Exists(s.f, mv.id) {
      WriteKeepsIff(s.f, mv.id, WriteOf(s, mv).value);
    }
    hide Apply, Gap, HttpTaken, VoiceTaken, Unheld;
  }

  /** In every interleaving of picks, confirmations and local operations no two
      existing hubs ever share a port exactly when every confirmation finds the
      ports it writes still unheld. */
  lemma {:induction false} PortsStayApartIff(s: State, bases: Bases, mvs: seq<Move>)
    requires NoCollision(s.f)
    ensures AlwaysApart(s, bases, mvs) <==> AllFresh(s, bases, mvs)
    decreases |mvs|
  {
    if mvs != [] {
      MoveKeepsIff(s, bases, mvs[0]);
      hide Moved, Fresh, NoCollision;
      var next := Moved(s, bases, mvs[0]);
      if NoCollision(next.f) {
        PortsStayApartIff(next, bases, mvs[1..]);
      }
    }
  }

  // ---- When confirmations are fresh -----------------------------------------------------------

  /** The hubs with ports picked and not confirmed. */
  function Waiting(s: State): set<Id> {
    s.http.Keys + s.voice.Keys
  }

  /** The move may take a port for a hub other than the one waiting. */
  predicate TakesOther(s: State, mv: Move) {
    || (mv.Local? && (mv.op.AllocateAndSpawn? || mv.op.SpawnAll? || mv.op.Restart? || mv.op.FillVoice?))
    || ((mv.PickHttp? || mv.PickVoice?) && Waiting(s) != {mv.id})
  }

  /** While a hub waits, no other takes ports. */
  predicate OneAtATime(s: State, bases: Bases, mvs: seq<Move>)
    decreases |mvs|
  {
    mvs != [] ==>
      (Waiting(s) != {} ==> !TakesOther(s, mvs[0])) && OneAtATime(Moved(s, bases, mvs[0]), bases, mvs[1..])
  }

  /** At most one hub waits, and its ports are unheld. */
  predicate Pending(s: State) {
    && (forall a :: a in s.http ==> HttpUnheld(s.f, a, s.http[a]))
    && (forall a :: a in s.voice ==> VoiceUnheld(s.f, a, s.voice[a]))
    && (forall a, b :: a in Waiting(s) && b in Waiting(s) ==> a == b)
  }

  lemma PickedIsUnheld(f: Farm, bases: Bases, id: Id)
    ensures Gap(bases.http, HttpTaken(f)).Some? ==> HttpUnheld(f, id, Gap(bases.http, HttpTaken(f)).value)
    ensures Gap(bases.voice, VoiceTaken(f)).Some? ==> VoiceUnheld(f, id, Gap(bases.voice, VoiceTaken(f)).value)
  {
    forall x | x in f.rows && !f.rows[x].deleted
      ensures f.rows[x].http.Some? ==> f.rows[x].http.value in HttpTaken(f)
      ensures f.rows[x].voice.Some? ==> f.rows[x].voice.value in VoiceTaken(f)
    {
      TakenHolds(f, x);
    }
    hide HttpTaken, VoiceTaken, Gap;
  }

  /** These operations give no hub a port. */
  lemma GivesNone(f: Farm, bases: Bases, op: Op)
    requires !(op.AllocateAndSpawn? || op.SpawnAll? || op.Restart? || op.FillVoice?)
    ensures forall x :: Exists(Apply(f, bases, op), x) ==>
              var r := Apply(f, bases, op).rows[x];
              (r.http.Some? || r.voice.Some? ==> Exists(f, x))
              && (r.http.Some? ==> f.rows[x].http == r.http) && (r.voice.Some? ==> f.rows[x].voice == r.voice)
  {
    hide AllocatedAndSpawned, AllRevived, Restarted, VoiceResolved;
    match op {
      case Create(id) => assert id !in f.rows ==> Created(f, id).rows[id] == Row(None, None, false, false);
      case _ =>
    }
  }

  lemma StillUnheld(f: Farm, g: Farm, id: Id, port: u16)
    requires forall x :: Exists(g, x) ==>
               (g.rows[x].http.Some? || g.rows[x].voice.Some? ==> Exists(f, x))
               && (g.rows[x].http.Some? ==> f.rows[x].http == g.rows[x].http)
               && (g.rows[x].voice.Some? ==> f.rows[x].voice == g.rows[x].voice)
    ensures HttpUnheld(f, id, port) ==> HttpUnheld(g, id, port)
    ensures VoiceUnheld(f, id, port) ==> VoiceUnheld(g, id, port)
  {
    forall x | x in g.rows && Exists(g, x) && x != id && HttpUnheld(f, id, port) ensures g.rows[x].http != Some(port) {
      assert g.rows[x].http.Some? ==> f.rows[x].http == g.rows[x].http;
    }
    forall x | x in g.rows && Exists(g, x) && x != id && VoiceUnheld(f, id, port) ensures g.rows[x].voice != Some(port) {
      assert g.rows[x].voice.Some? ==> f.rows[x].voice == g.rows[x].voice;
    }
  }

  lemma PickKeepsPending(s: State, bases: Bases, mv: Move)
    requires Pending(s) && (mv.PickHttp? || mv.PickVoice?) && (Waiting(s) != {} ==> Waiting(s) == {mv.id})
    ensures Pending(Moved(s, bases, mv))
  {
    PickedIsUnheld(s.f, bases, mv.id);
    hide Gap, HttpTaken, VoiceTaken, HttpUnheld, VoiceUnheld;
    assert forall a :: a in Waiting(s) ==> a == mv.id;
  }

  lemma MoveKeepsPending(s: State, bases: Bases, mv: Move)
    requires Pending(s) && (Waiting(s) != {} ==> !TakesOther(s, mv))
    ensures Pending(Moved(s, bases, mv)) && Fresh(s, mv)
  {
    if mv.PickHttp? || mv.PickVoice? {
      PickKeepsPending(s, bases, mv);
    } else if mv.Local? {
      if Waiting(s) != {} {
        GivesNone(s.f, bases, mv.op);
        forall a | a in s.http ensures HttpUnheld(Apply(s.f, bases, mv.op), a, s.http[a]) {
          StillUnheld(s.f, Apply(s.f, bases, mv.op), a, s.http[a]);
        }
        forall a | a in s.voice ensures VoiceUnheld(Apply(s.f, bases, mv.op), a, s.voice[a]) {
          StillUnheld(s.f, Apply(s.f, bases, mv.op), a, s.voice[a]);
        }
      } else {
        assert s.http.Keys == {} && s.voice.Keys == {};
      }
      hide Apply, HttpUnheld, VoiceUnheld;
    } else if mv.Start? {
      assert Launched(s.f, mv.id).rows == s.f.rows;
    } else {
      ConfirmKeepsPending(s, bases, mv);
    }
  }

  lemma ConfirmKeepsPending(s: State, bases: Bases, mv: Move)
    requires Pending(s) && !mv.Local? && !mv.PickHttp? && !mv.PickVoice? && !mv.Start?
    ensures Pending(Moved(s, bases, mv)) && Fresh(s, mv)
  {
    if WriteOf(s, mv).Some? {
      assert mv.id in Waiting(s);
      assert Waiting(Moved(s, bases, mv)) == {};
    }
  }

  /** Picked and confirmed one hub at a time, ports never collide. */
  lemma {:induction false} OneAtATimeKeepsApart(s: State, bases: Bases, mvs: seq<Move>)
    requires NoCollision(s.f) && Pending(s) && OneAtATime(s, bases, mvs)
    ensures AlwaysApart(s, bases, mvs)
    decreases |mvs|
  {
    if mvs != [] {
      MoveKeepsPending(s, bases, mvs[0]);
      MoveKeepsIff(s, bases, mvs[0]);
      hide Moved, Fresh, NoCollision, Pending, TakesOther;
      OneAtATimeKeepsApart(Moved(s, bases, mvs[0]), bases, mvs[1..]);
    }
  }

  // ---- Overlaps --------------------------------------------------------------------------------

  function PickBoth(id: Id): seq<Move> {
    [PickHttp(id), PickVoice(id)]
  }

  /** Ports picked for two hubs before either is confirmed are the same two ports,
      wherever the hubs are to run, and both rows end on them. */
  lemma OverlappingPicksCollide(s: State, bases: Bases, a: Id, b: Id)
    requires NoCollision(s.f) && a != b && Exists(s.f, a) && Exists(s.f, b)
    requires Gap(bases.http, HttpTaken(s.f)).Some? && Gap(bases.voice, VoiceTaken(s.f)).Some?
    ensures var picked := MovedAll(MovedAll(s, bases, PickBoth(a)), bases, PickBoth(b));
            && a in picked.http && b in picked.http && a in picked.voice && b in picked.voice
            && picked.http[a] == picked.http[b] && picked.voice[a] == picked.voice[b]
            && var done := MovedAll(picked, bases, [Confirm(a), Confirm(b)]).f;
               && a in done.rows && b in done.rows
               && done.rows[a].http == done.rows[b].http == Some(picked.http[a])
               && done.rows[a].voice == done.rows[b].voice == Some(picked.voice[a])
               && !NoCollision(done)
  {
    hide Gap, HttpTaken, VoiceTaken, Apply;
    TwoMoves(s, bases, PickHttp(a), PickVoice(a));
    var s1 := MovedAll(s, bases, PickBoth(a));
    assert s1.f == s.f;
    TwoMoves(s1, bases, PickHttp(b), PickVoice(b));
    var s2 := MovedAll(s1, bases, PickBoth(b));
    TwoMoves(s2, bases, Confirm(a), Confirm(b));
  }

  lemma TwoMoves(s: State, bases: Bases, x: Move, y: Move)
    ensures MovedAll(s, bases, [x, y]) == Moved(Moved(s, bases, x), bases, y)
  {
    hide Moved;
    assert [x, y][1..] == [y] && [y][1..] == [];
    assert MovedAll(Moved(s, bases, x), bases, [y]) == MovedAll(Moved(Moved(s, bases, x), bases, y), bases, []);
  }

  /** With nothing in between, picking, confirming and starting is the allocation
      of a hub on the farm. */
  lemma UndisturbedIsAllocation(f: Farm, bases: Bases, id: Id)
    requires id in f.rows
    requires Gap(bases.http, HttpTaken(f)).Some? && Gap(bases.voice, VoiceTaken(f)).Some?
    ensures var s := MovedAll(State(f, map[], map[]), bases, PickBoth(id));
            MovedAll(s, bases, [Confirm(id), Start(id)]).f == AllocatedAndSpawned(f, bases, id, true)
  {
    hide Gap, HttpTaken, VoiceTaken;
    var s := State(f, map[], map[]);
    TwoMoves(s, bases, PickHttp(id), PickVoice(id));
    TwoMoves(MovedAll(s, bases, PickBoth(id)), bases, Confirm(id), Start(id));
  }
}
