/** Which node a new hub goes on, once and over a run of placements. */
module Placement {
  import opened Bytes

  const I64_MAX: int := 0x7FFF_FFFF_FFFF_FFFF

  /** `serverId` is `None` for the farm's own process, `capacity` for no limit. */
  datatype Node = Node(serverId: Option<nat>, inUse: int, capacity: Option<int>) {
    predicate HasRoom() {
      capacity.None? || inUse < capacity.value
    }

    /** Free slots, used only for ordering. */
    function Free(): int {
      if capacity.None? then I64_MAX else capacity.value - inUse
    }
  }

  datatype Error = UnknownServer | ServerFull | NoCapacity

  datatype Choice = Chosen(index: nat) | Refused(error: Error)

  /** The order `max_by_key` compares by: free slots, then agents over the farm. */
  predicate KeyLeq(a: Node, b: Node) {
    a.Free() < b.Free() || (a.Free() == b.Free() && (a.serverId.Some? ==> b.serverId.Some?))
  }

  function FirstNamed(ns: seq<Node>, id: nat, i: nat): (r: Option<nat>)
    requires i <= |ns|
    ensures r.Some? ==> r.value < |ns| && ns[r.value].serverId == Some(id)
    ensures r.None? ==> forall j :: i <= j < |ns| ==> ns[j].serverId != Some(id)
    decreases |ns| - i
  {
    if i == |ns| then None else if ns[i].serverId == Some(id) then Some(i) else FirstNamed(ns, id, i + 1)
  }

  /** Among the first `n` nodes, the last of those with room that none with room
      exceeds. */
  function Emptiest(ns: seq<Node>, n: nat): (r: Option<nat>)
    requires n <= |ns|
    ensures r.Some? ==>
              && r.value < n && ns[r.value].HasRoom()
              && (forall j :: 0 <= j < n && ns[j].HasRoom() ==> KeyLeq(ns[j], ns[r.value]))
              && (forall j :: r.value < j < n && ns[j].HasRoom() ==> !KeyLeq(ns[r.value], ns[j]))
    ensures r.None? ==> forall j :: 0 <= j < n ==> !ns[j].HasRoom()
  {
    if n == 0 then None
    else
      var best := Emptiest(ns, n - 1);
      if !ns[n - 1].HasRoom() then best
      else if best.None? || KeyLeq(ns[best.value], ns[n - 1]) then Some(n - 1)
      else best
  }

  function Choose(ns: seq<Node>, requested: Option<nat>): Choice {
    match requested
    case Some(id) =>
      (match FirstNamed(ns, id, 0)
       case None => Refused(UnknownServer)
       case Some(i) => if ns[i].HasRoom() then Chosen(i) else Refused(ServerFull))
    case None =>
      (match Emptiest(ns, |ns|)
       case None => Refused(NoCapacity)
       case Some(i) => Chosen(i))
  }

  /** Free slots by the fields; no cap counts as the largest number. */
  predicate FreerThan(a: Node, b: Node) {
    match (a.capacity, b.capacity)
    case (Some(x), Some(y)) => x - a.inUse > y - b.inUse
    case (Some(x), None) => x - a.inUse > 0x7FFF_FFFF_FFFF_FFFF
    case (None, Some(y)) => 0x7FFF_FFFF_FFFF_FFFF > y - b.inUse
    case (None, None) => false
  }

  predicate IsFirstNamed(ns: seq<Node>, id: nat, i: nat) {
    i < |ns| && ns[i].serverId == Some(id) && forall j :: 0 <= j < i ==> ns[j].serverId != Some(id)
  }

  predicate Full(n: Node) {
    n.capacity.Some? && n.inUse >= n.capacity.value
  }

  /** A named server is that one or a refusal: unknown, or full. Otherwise the choice
      is a node with room than which none with room is freer, an agent if one is
      as free, the last of those listed; and refused only when all are full. */
  lemma ChooseMeans(ns: seq<Node>, requested: Option<nat>)
    ensures Choose(ns, requested).Chosen? ==>
              var i := Choose(ns, requested).index;
              && i < |ns| && ns[i].HasRoom() && !Full(ns[i])
              && (requested.Some? ==> ns[i].serverId == requested)
              && (requested.None? ==> forall j :: 0 <= j < |ns| && !Full(ns[j]) ==>
                    && !FreerThan(ns[j], ns[i])
                    && (FreerThan(ns[i], ns[j]) || (ns[j].serverId.Some? ==> ns[i].serverId.Some?))
                    && (j > i ==> FreerThan(ns[i], ns[j]) || (ns[i].serverId.Some? && ns[j].serverId.None?)))
    ensures Choose(ns, requested) == Refused(NoCapacity) <==>
            requested.None? && forall j :: 0 <= j < |ns| ==> Full(ns[j])
    ensures Choose(ns, requested) == Refused(UnknownServer) <==>
            requested.Some? && forall j :: 0 <= j < |ns| ==> ns[j].serverId != requested
    ensures Choose(ns, requested) == Refused(ServerFull) <==>
            requested.Some? && exists i: nat :: IsFirstNamed(ns, requested.value, i) && Full(ns[i])
  {
    if requested.Some? {
      FirstNamedIsFirst(ns, requested.value, 0);
      var first := FirstNamed(ns, requested.value, 0);
      assert first.Some? ==> IsFirstNamed(ns, requested.value, first.value);
    }
  }

  lemma {:induction false} FirstNamedIsFirst(ns: seq<Node>, id: nat, i: nat)
    requires i <= |ns|
    ensures var r := FirstNamed(ns, id, i);
            r.Some? ==> i <= r.value < |ns| && forall j :: i <= j < r.value ==> ns[j].serverId != Some(id)
    decreases |ns| - i
  {
    if i < |ns| && ns[i].serverId != Some(id) {
      FirstNamedIsFirst(ns, id, i + 1);
    }
  }

  // ---- Runs ------------------------------------------------------------------------

  function Occupy(ns: seq<Node>, i: nat): (r: seq<Node>)
    requires i < |ns|
    ensures |r| == |ns|
  {
    ns[i := ns[i].(inUse := ns[i].inUse + 1)]
  }

  function Place(ns: seq<Node>, requested: Option<nat>): (r: seq<Node>)
    ensures |r| == |ns|
  {
    ChooseMeans(ns, requested);
    match Choose(ns, requested)
    case Chosen(i) => Occupy(ns, i)
    case Refused(_) => ns
  }

  function PlaceAll(ns: seq<Node>, requests: seq<Option<nat>>): (r: seq<Node>)
    ensures |r| == |ns|
    decreases |requests|
  {
    if requests == [] then ns else PlaceAll(Place(ns, requests[0]), requests[1..])
  }

  /** No node a run fills exceeds its cap: one over its cap was so before. */
  lemma {:induction false} CapsHold(ns: seq<Node>, requests: seq<Option<nat>>, i: nat)
    requires i < |ns|
    ensures var r := PlaceAll(ns, requests)[i];
            && r.serverId == ns[i].serverId && r.capacity == ns[i].capacity && r.inUse >= ns[i].inUse
            && (r.capacity.Some? && r.inUse > r.capacity.value ==> r == ns[i])
    decreases |requests|
  {
    if requests != [] {
      ChooseMeans(ns, requests[0]);
      CapsHold(Place(ns, requests[0]), requests[1..], i);
    }
  }

  function Slots(n: Node): nat {
    if n.capacity.Some? && n.inUse < n.capacity.value then n.capacity.value - n.inUse else 0
  }

  function TotalSlots(ns: seq<Node>): nat {
    if ns == [] then 0 else Slots(ns[0]) + TotalSlots(ns[1..])
  }

  predicate AllCapped(ns: seq<Node>) {
    forall i :: 0 <= i < |ns| ==> ns[i].capacity.Some?
  }

  lemma {:induction false} OccupyTakesOneSlot(ns: seq<Node>, i: nat)
    requires i < |ns| && ns[i].capacity.Some? && ns[i].HasRoom()
    ensures TotalSlots(Occupy(ns, i)) == TotalSlots(ns) - 1
    decreases |ns|
  {
    if i == 0 {
      assert Occupy(ns, 0)[1..] == ns[1..];
    } else {
      OccupyTakesOneSlot(ns[1..], i - 1);
      assert Occupy(ns, i)[1..] == Occupy(ns[1..], i - 1);
    }
  }

  lemma {:induction false} NoSlotsMeansFull(ns: seq<Node>)
    requires AllCapped(ns)
    ensures TotalSlots(ns) == 0 <==> forall j :: 0 <= j < |ns| ==> !ns[j].HasRoom()
    decreases |ns|
  {
    if ns != [] {
      NoSlotsMeansFull(ns[1..]);
      assert (forall j :: 0 <= j < |ns| ==> !ns[j].HasRoom()) ==>
        forall j :: 0 <= j < |ns[1..]| ==> !ns[1..][j].HasRoom() by {
        assert forall j :: 0 <= j < |ns[1..]| ==> ns[1..][j] == ns[j + 1];
      }
      assert forall j :: 1 <= j < |ns| ==> ns[j] == ns[1..][j - 1];
    }
  }

  /** The farm after `n` placements that name no server. */
  function Fill(ns: seq<Node>, n: nat): (r: seq<Node>)
    ensures |r| == |ns|
  {
    if n == 0 then ns else Place(Fill(ns, n - 1), None)
  }

  /** With every node capped, exactly the free slots are handed out: that many
      placements succeed, and then none does. */
  lemma {:induction false} ExactlyTheSlots(ns: seq<Node>, n: nat)
    requires AllCapped(ns)
    ensures AllCapped(Fill(ns, n))
    ensures TotalSlots(Fill(ns, n)) == if n <= TotalSlots(ns) then TotalSlots(ns) - n else 0
    ensures Choose(Fill(ns, n), None).Chosen? <==> n < TotalSlots(ns)
    ensures n >= TotalSlots(ns) ==> Choose(Fill(ns, n), None) == Refused(NoCapacity)
    decreases n
  {
    if n > 0 {
      ExactlyTheSlots(ns, n - 1);
      var before := Fill(ns, n - 1);
      ChooseMeans(before, None);
      if n - 1 < TotalSlots(ns) {
        OccupyTakesOneSlot(before, Choose(before, None).index);
      }
    }
    NoSlotsMeansFull(Fill(ns, n));
    ChooseMeans(Fill(ns, n), None);
  }

  /** No two nodes differ by more than `d` free slots. */
  predicate SpreadAtMost(ns: seq<Node>, d: int) {
    forall i, j :: 0 <= i < |ns| && 0 <= j < |ns| ==> ns[i].Free() - ns[j].Free() <= d
  }

  /** Placing keeps hubs spread: with every node capped the gap between the
      most and the least free node never grows beyond its start, or one. */
  lemma {:induction false} SpreadIsKept(ns: seq<Node>, n: nat, d: int)
    requires AllCapped(ns) && SpreadAtMost(ns, d) && d >= 1
    ensures SpreadAtMost(Fill(ns, n), d)
    decreases n
  {
    if n > 0 {
      SpreadIsKept(ns, n - 1, d);
      ExactlyTheSlots(ns, n - 1);
      var before, after := Fill(ns, n - 1), Fill(ns, n);
      ChooseMeans(before, None);
      if Choose(before, None).Chosen? {
        var c := Choose(before, None).index;
        forall i, j | 0 <= i < |after| && 0 <= j < |after| ensures after[i].Free() - after[j].Free() <= d {
          if j == c && i != c && before[i].HasRoom() {
            assert before[i].Free() <= before[c].Free();
          }
        }
      }
    }
  }
}
