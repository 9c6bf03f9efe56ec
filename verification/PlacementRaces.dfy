/** A node is chosen from counts that were read; the hub's row is then inserted
    without a server, which counts it on the farm's own node, and only later given
    the server that was chosen. What comes in between decides whether caps hold. */
module PlacementRaces {
  import opened Bytes
  import opened Placement

  type Request = nat

  /** `own` is the farm's own node. `chosen`: the requests that have chosen a node
      and have no row yet. `placed`: those whose row counts on the own node, with
      the node it is to go to. */
  datatype State = State(nodes: seq<Node>, own: nat, chosen: map<Request, nat>, placed: map<Request, nat>)

  /** `Abandon`: the request ends and leaves its row where it is, as when the agent
      has gone. `Drop`: it ends and deletes its row, for want of a database.
      `Leave` is the deletion of a hub that has its place. */
  datatype Move =
    | Ask(r: Request, requested: Option<nat>)
    | Insert(r: Request)
    | Assign(r: Request)
    | Abandon(r: Request)
    | Drop(r: Request)
    | Leave(index: nat)

  function Vacate(ns: seq<Node>, i: nat): (r: seq<Node>)
    ensures |r| == |ns|
  {
    if i < |ns| && ns[i].inUse > 0 then ns[i := ns[i].(inUse := ns[i].inUse - 1)] else ns
  }

  function Moved(s: State, mv: Move): State {
    match mv
    case Ask(r, requested) =>
      (match Choose(s.nodes, requested)
       case Chosen(i) => s.(chosen := s.chosen[r := i])
       case Refused(_) => s)
    case Insert(r) =>
      if r in s.chosen && s.own < |s.nodes| then
        s.(nodes := Occupy(s.nodes, s.own), chosen := s.chosen - {r}, placed := s.placed[r := s.chosen[r]])
      else s
    case Assign(r) =>
      if r in s.placed && s.placed[r] < |s.nodes| then
        s.(nodes := if s.placed[r] == s.own then s.nodes else Occupy(Vacate(s.nodes, s.own), s.placed[r]),
           placed := s.placed - {r})
      else s
    case Abandon(r) => s.(chosen := s.chosen - {r}, placed := s.placed - {r})
    case Drop(r) =>
      if r in s.placed then s.(nodes := Vacate(s.nodes, s.own), placed := s.placed - {r})
      else s.(chosen := s.chosen - {r})
    case Leave(i) => s.(nodes := Vacate(s.nodes, i))
  }

  function MovedAll(s: State, mvs: seq<Move>): State
    decreases |mvs|
  {
    if mvs == [] then s else MovedAll(Moved(s, mvs[0]), mvs[1..])
  }

  predicate WithinCaps(ns: seq<Node>) {
    forall i :: 0 <= i < |ns| && ns[i].capacity.Some? ==> ns[i].inUse <= ns[i].capacity.value
  }

  /** Caps hold now and after every move. */
  predicate AlwaysWithin(s: State, mvs: seq<Move>)
    decreases |mvs|
  {
    WithinCaps(s.nodes) && (mvs != [] ==> AlwaysWithin(Moved(s, mvs[0]), mvs[1..]))
  }

  /** A row that is inserted finds the own node with room, and one that is assigned
      to another node finds that one with room. */
  predicate FindsRoom(s: State, mv: Move) {
    && (mv.Insert? && mv.r in s.chosen && s.own < |s.nodes| ==> s.nodes[s.own].HasRoom())
    && (mv.Assign? && mv.r in s.placed && s.placed[mv.r] < |s.nodes| && s.placed[mv.r] != s.own ==>
          s.nodes[s.placed[mv.r]].HasRoom())
  }

  predicate AllFindRoom(s: State, mvs: seq<Move>)
    decreases |mvs|
  {
    mvs != [] ==> FindsRoom(s, mvs[0]) && AllFindRoom(Moved(s, mvs[0]), mvs[1..])
  }

  lemma VacateKeeps(ns: seq<Node>, i: nat)
    requires WithinCaps(ns)
    ensures WithinCaps(Vacate(ns, i))
    ensures forall j :: 0 <= j < |ns| && j != i ==> Vacate(ns, i)[j] == ns[j]
    ensures forall j :: 0 <= j < |ns| && ns[j].HasRoom() ==> Vacate(ns, i)[j].HasRoom()
  {
  }

  lemma OccupyKeepsIff(ns: seq<Node>, i: nat)
    requires WithinCaps(ns) && i < |ns|
    ensures WithinCaps(Occupy(ns, i)) <==> ns[i].HasRoom()
  {
    assert Occupy(ns, i)[i] == ns[i].(inUse := ns[i].inUse + 1);
  }

  lemma MoveKeepsIff(s: State, mv: Move)
    requires WithinCaps(s.nodes)
    ensures WithinCaps(Moved(s, mv).nodes) <==> FindsRoom(s, mv)
  {
    VacateKeeps(s.nodes, s.own);
    if mv.Insert? && s.own < |s.nodes| {
      OccupyKeepsIff(s.nodes, s.own);
    } else if mv.Assign? && mv.r in s.placed && s.placed[mv.r] < |s.nodes| {
      OccupyKeepsIff(Vacate(s.nodes, s.own), s.placed[mv.r]);
    } else if mv.Leave? {
      VacateKeeps(s.nodes, mv.index);
    }
    hide Choose, WithinCaps, Vacate, Occupy;
  }

  /** In every interleaving no node exceeds its cap exactly when every row inserted
      finds the farm's own node with room, and every row assigned elsewhere finds its
      node with room. */
  lemma {:induction false} CapsHoldIff(s: State, mvs: seq<Move>)
    requires WithinCaps(s.nodes)
    ensures AlwaysWithin(s, mvs) <==> AllFindRoom(s, mvs)
    decreases |mvs|
  {
    if mvs != [] {
      MoveKeepsIff(s, mvs[0]);
      hide Moved, WithinCaps, FindsRoom;
      var next := Moved(s, mvs[0]);
      if WithinCaps(next.nodes) {
        CapsHoldIff(next, mvs[1..]);
      }
    }
  }

  // ---- One request at a time ----------------------------------------------------------

  function Waiting(s: State): set<Request> {
    s.chosen.Keys + s.placed.Keys
  }

  /** A request chooses only when no other is under way. */
  predicate OneAtATime(s: State, mvs: seq<Move>)
    decreases |mvs|
  {
    mvs != [] ==> (Waiting(s) != {} ==> !mvs[0].Ask?) && OneAtATime(Moved(s, mvs[0]), mvs[1..])
  }

  /** A row on its way to another node is inserted only while the own node has room. */
  predicate OwnHasRoom(s: State, mv: Move) {
    mv.Insert? && mv.r in s.chosen && s.own < |s.nodes| && s.chosen[mv.r] != s.own ==> s.nodes[s.own].HasRoom()
  }

  predicate OwnAlwaysHasRoom(s: State, mvs: seq<Move>)
    decreases |mvs|
  {
    mvs != [] ==> OwnHasRoom(s, mvs[0]) && OwnAlwaysHasRoom(Moved(s, mvs[0]), mvs[1..])
  }

  /** At most one request is under way, and the node it chose has room until its
      row is there. */
  predicate Pending(s: State) {
    && (forall a, b :: a in Waiting(s) && b in Waiting(s) ==> a == b) && s.chosen.Keys !! s.placed.Keys
    && (forall a :: a in s.chosen ==> s.chosen[a] < |s.nodes| && s.nodes[s.chosen[a]].HasRoom())
    && (forall a :: a in s.placed && s.placed[a] != s.own ==> s.placed[a] < |s.nodes| && s.nodes[s.placed[a]].HasRoom())
  }

  lemma AskKeepsPending(s: State, mv: Move)
    requires mv.Ask? && Waiting(s) == {}
    ensures Pending(Moved(s, mv))
  {
    ChooseMeans(s.nodes, mv.requested);
    assert s.chosen.Keys == {} && s.placed.Keys == {};
    hide Choose;
  }

  lemma InsertKeepsPending(s: State, mv: Move)
    requires Pending(s) && mv.Insert?
    ensures Pending(Moved(s, mv))
    ensures FindsRoom(s, mv) <==> OwnHasRoom(s, mv)
  {
    if mv.r in s.chosen {
      assert mv.r in Waiting(s);
      assert forall a :: a in Waiting(s) ==> a == mv.r;
    }
  }

  lemma AssignKeepsPending(s: State, mv: Move)
    requires Pending(s) && mv.Assign?
    ensures Pending(Moved(s, mv)) && FindsRoom(s, mv)
  {
    if mv.r in s.placed {
      assert mv.r in Waiting(s);
      assert forall a :: a in Waiting(s) ==> a == mv.r;
      assert mv.r !in s.chosen;
      assert s.placed[mv.r] < |s.nodes| ==> Waiting(Moved(s, mv)) == {};
    }
  }

  lemma LessKeepsPending(s: State, mv: Move)
    requires WithinCaps(s.nodes) && Pending(s) && (mv.Abandon? || mv.Drop? || mv.Leave?)
    ensures Pending(Moved(s, mv))
  {
    VacateKeeps(s.nodes, s.own);
    if mv.Leave? {
      VacateKeeps(s.nodes, mv.index);
    }
    assert Waiting(Moved(s, mv)) <= Waiting(s);
    hide Vacate, WithinCaps;
  }

  lemma MoveKeepsPending(s: State, mv: Move)
    requires WithinCaps(s.nodes) && Pending(s) && (Waiting(s) != {} ==> !mv.Ask?)
    ensures Pending(Moved(s, mv)) && (FindsRoom(s, mv) <==> OwnHasRoom(s, mv))
  {
    match mv {
      case Ask(_, _) => AskKeepsPending(s, mv);
      case Insert(_) => InsertKeepsPending(s, mv);
      case Assign(_) => AssignKeepsPending(s, mv);
      case _ => LessKeepsPending(s, mv);
    }
    hide Moved, Pending, WithinCaps;
  }

  /** One request at a time, no node ever exceeds its cap exactly when the farm's own
      node has room whenever a row on its way to an agent is inserted. */
  lemma {:induction false} OneAtATimeIff(s: State, mvs: seq<Move>)
    requires WithinCaps(s.nodes) && Pending(s) && OneAtATime(s, mvs)
    ensures AlwaysWithin(s, mvs) <==> OwnAlwaysHasRoom(s, mvs)
    decreases |mvs|
  {
    if mvs != [] {
      MoveKeepsPending(s, mvs[0]);
      MoveKeepsIff(s, mvs[0]);
      hide Moved, WithinCaps, FindsRoom, Pending, OwnHasRoom;
      var next := Moved(s, mvs[0]);
      if WithinCaps(next.nodes) {
        OneAtATimeIff(next, mvs[1..]);
      }
    }
  }

  // ---- Where it fails --------------------------------------------------------------------

  lemma TwoMoves(s: State, x: Move, y: Move)
    ensures MovedAll(s, [x, y]) == Moved(Moved(s, x), y)
  {
    hide Moved;
    assert [x, y][1..] == [y] && [y][1..] == [];
    assert MovedAll(Moved(s, x), [y]) == MovedAll(Moved(Moved(s, x), y), []);
  }

  /** With the own node full, a single request that chooses an agent puts it over its
      cap, until the row is assigned, or for good if the agent has gone. */
  lemma FullOwnNodeOverfills(ns: seq<Node>, own: nat, requested: Option<nat>, r: Request)
    requires own < |ns| && ns[own].capacity == Some(ns[own].inUse) && ns[own].inUse > 0
    requires Choose(ns, requested).Chosen? && Choose(ns, requested).index != own
    ensures var s := MovedAll(State(ns, own, map[], map[]), [Ask(r, requested), Insert(r)]);
            && !WithinCaps(s.nodes) && !WithinCaps(Moved(s, Abandon(r)).nodes)
            && own < |Moved(s, Assign(r)).nodes| && Moved(s, Assign(r)).nodes[own] == ns[own]
  {
    ChooseMeans(ns, requested);
    var i := Choose(ns, requested).index;
    TwoMoves(State(ns, own, map[], map[]), Ask(r, requested), Insert(r));
    hide Choose;
    var s := MovedAll(State(ns, own, map[], map[]), [Ask(r, requested), Insert(r)]);
    assert s.nodes == Occupy(ns, own) && s.nodes[own].inUse == ns[own].inUse + 1;
    assert s.placed[r] == i;
  }

  /** Two requests that choose before either is counted choose the same node, and
      both end up on it: with one slot left, over its cap. */
  lemma LastSlotTakenTwice(ns: seq<Node>, own: nat, requested: Option<nat>, a: Request, b: Request)
    requires a != b && own < |ns| && ns[own].inUse >= 0 && Choose(ns, requested).Chosen?
    ensures var i := Choose(ns, requested).index;
            var s := MovedAll(State(ns, own, map[], map[]), [Ask(a, requested), Ask(b, requested)]);
            var t := MovedAll(MovedAll(s, [Insert(a), Assign(a)]), [Insert(b), Assign(b)]);
            && i < |ns| == |t.nodes| && t.nodes[i].inUse == ns[i].inUse + 2
            && (ns[i].capacity == Some(ns[i].inUse + 1) ==> !WithinCaps(t.nodes))
  {
    ChooseMeans(ns, requested);
    var i, s0 := Choose(ns, requested).index, State(ns, own, map[], map[]);
    TwoMoves(s0, Ask(a, requested), Ask(b, requested));
    hide Choose;
    var s := MovedAll(s0, [Ask(a, requested), Ask(b, requested)]);
    assert s.nodes == ns && s.chosen[a] == i && s.chosen[b] == i;
    InsertAndAssign(s, a, i);
    var mid := MovedAll(s, [Insert(a), Assign(a)]);
    InsertAndAssign(mid, b, i);
    hide Moved, MovedAll;
    var t := MovedAll(mid, [Insert(b), Assign(b)]);
    assert t.nodes[i].capacity == ns[i].capacity;
  }

  /** A request carried through is one hub more on its node and nothing else. */
  lemma InsertAndAssign(s: State, r: Request, i: nat)
    requires s.own < |s.nodes| && s.nodes[s.own].inUse >= 0 && r in s.chosen && s.chosen[r] == i < |s.nodes|
    ensures var t := MovedAll(s, [Insert(r), Assign(r)]);
            && t.nodes == Occupy(s.nodes, i) && t.own == s.own && t.chosen == s.chosen - {r}
  {
    TwoMoves(s, Insert(r), Assign(r));
    var m := Moved(s, Insert(r));
    assert Vacate(m.nodes, s.own) == s.nodes;
  }

  /** A request that comes to nothing for want of a database leaves no trace. */
  lemma DroppedLeavesNoTrace(s: State, r: Request)
    requires s.own < |s.nodes| && s.nodes[s.own].inUse >= 0 && r in s.chosen && r !in s.placed
    ensures var t := MovedAll(s, [Insert(r), Drop(r)]);
            t.nodes == s.nodes && t.own == s.own && t.chosen == s.chosen - {r} && t.placed == s.placed
  {
    TwoMoves(s, Insert(r), Drop(r));
    var m := Moved(s, Insert(r));
    assert Vacate(m.nodes, s.own) == s.nodes;
    assert m.placed - {r} == s.placed;
  }
}
