/** derive_schedule_bytes up to its encoding: the mutable allocator that computes `Allocation.Derived`. */
module Allocator {
  import opened Circuits
  import opened Results
  import opened Schedules
  import opened Allocation

  /** The last-use table: later gates overwrite earlier ones, and outputs overwrite all gates. */
  method LastUses(c: Circuit) returns (lastUse: seq<Option<nat>>)
    requires Acyclic(c)
    ensures |lastUse| == c.WireCount()
    ensures forall w :: 0 <= w < |lastUse| ==> lastUse[w] == LastUse(c, w)
  {
    lastUse := seq(c.WireCount(), _ => None);
    for g := 0 to |c.gates|
      invariant |lastUse| == c.WireCount()
      invariant forall w :: 0 <= w < |lastUse| ==> lastUse[w] == LastReader(c, w, g)
    {
      lastUse := lastUse[c.gates[g].left := Some(g)];
      lastUse := lastUse[c.gates[g].right := Some(g)];
    }
    for o := 0 to |c.outputs|
      invariant |lastUse| == c.WireCount()
      invariant forall w :: 0 <= w < |lastUse| ==>
                  lastUse[w] == if w in c.outputs[..o] then Some(|c.gates|) else LastReader(c, w, |c.gates|)
    {
      lastUse := lastUse[c.outputs[o] := Some(|c.gates|)];
      assert c.outputs[..o + 1] == c.outputs[..o] + [c.outputs[o]];
    }
    assert c.outputs[..|c.outputs|] == c.outputs;
  }

  /** Unused inputs free their slots at once, the others stay where they are. */
  method InitialSlots(c: Circuit, lastUse: seq<Option<nat>>)
    returns (slots: seq<Option<nat>>, free: multiset<nat>, members: set<nat>)
    requires |lastUse| == c.WireCount() && forall w :: 0 <= w < |lastUse| ==> lastUse[w] == LastUse(c, w)
    ensures Stands(ArenaAt(c, 0), slots, free, members, c.inputCount) && |slots| == c.WireCount()
  {
    hide LastUse, Partitioned;
    slots, free, members := seq(c.WireCount(), _ => None), multiset{}, {};
    for wire := 0 to c.inputCount
      invariant |slots| == c.WireCount()
      invariant forall w :: 0 <= w < |slots| ==> slots[w] == if w < wire && Used(c, w) then Some(w) else None
      invariant forall y :: y in members <==> 0 <= y < wire && !Used(c, y)
      invariant free == multiset(members)
    {
      if lastUse[wire].None? {
        free, members := free + multiset{wire}, members + {wire};
      } else {
        slots := slots[wire := Some(wire)];
      }
    }
    hide Used;
    InitialStands(c, slots, members);
  }

  lemma InitialStands(c: Circuit, slots: seq<Option<nat>>, members: set<nat>)
    requires |slots| == c.WireCount()
    requires forall w :: 0 <= w < |slots| ==> slots[w] == if w < c.inputCount && Used(c, w) then Some(w) else None
    requires forall y :: y in members <==> 0 <= y < c.inputCount && !Used(c, y)
    ensures Stands(ArenaAt(c, 0), slots, multiset(members), members, c.inputCount)
  {
    hide Used, Partitioned;
    StartIsPartitioned(c);
    assert members == StartArena(c).free;
  }

  /** The allocator's variables stand for the abstract arena `a`. The heap is the multiset of its
      elements: only the order in which heappop returns them can be observed. */
  ghost predicate Stands(a: Arena, wireSlots: seq<Option<nat>>, free: multiset<nat>, freeMembers: set<nat>, nextSlot: nat) {
    && Sized(a) && Partitioned(a) && |a.slotOf| <= |wireSlots|
    && (forall w :: 0 <= w < |wireSlots| ==>
          wireSlots[w] == if w in a.held then Some(a.slotOf[w]) else None)
    && free == multiset(freeMembers)
    && freeMembers == a.free
    && nextSlot == a.next
  }

  /** heapq.heappop. */
  method PopLeast(heap: multiset<nat>) returns (least: nat, rest: multiset<nat>)
    requires heap != multiset{}
    ensures least in heap && forall x :: x in heap ==> least <= x
    ensures rest == heap - multiset{least}
  {
    ghost var elements := set x | x in heap;
    ghost var some :| some in heap;
    assert some in elements;
    assert Min(elements) in heap;
    assert forall x :: x in heap ==> x in elements;
    least :| least in heap && forall x :: x in heap ==> least <= x;
    rest := heap - multiset{least};
  }

  lemma PlaceStands(a: Arena, wireSlots: seq<Option<nat>>, members: set<nat>, nextSlot: nat, slot: nat)
    requires Stands(a, wireSlots, multiset(members), members, nextSlot) && |a.slotOf| < |wireSlots|
    requires if members != {} then slot in members && forall x :: x in members ==> slot <= x else slot == nextSlot
    ensures slot == Destination(a)
    ensures Stands(Placed(a), wireSlots[|a.slotOf| := Some(slot)], multiset(members - {slot}), members - {slot},
                   if members != {} then nextSlot else nextSlot + 1)
  {
    hide Partitioned;
    PlacedKeepsPartition(a);
    assert slot == Destination(a);
    hide Destination;
    SlotsAfterPlacing(a, wireSlots, slot);
  }

  lemma SlotsAfterPlacing(a: Arena, wireSlots: seq<Option<nat>>, slot: nat)
    requires Sized(a) && |a.slotOf| < |wireSlots| && slot == Destination(a)
    requires forall w :: 0 <= w < |wireSlots| ==> wireSlots[w] == if w in a.held then Some(a.slotOf[w]) else None
    ensures var b, slots := Placed(a), wireSlots[|a.slotOf| := Some(slot)];
            forall w :: 0 <= w < |slots| ==> slots[w] == if w in b.held then Some(b.slotOf[w]) else None
  {
    hide Destination;
  }

  lemma HeapHoldsMembers(members: set<nat>)
    ensures multiset(members) == multiset{} <==> members == {}
    ensures forall x :: x in multiset(members) <==> x in members
  {
    if x :| x in members { assert x in multiset(members); }
  }

  lemma PopFromMembers(members: set<nat>, least: nat)
    requires least in members
    ensures multiset(members) - multiset{least} == multiset(members - {least})
  {
  }

  class SlotAllocator {
    var wireSlots: seq<Option<nat>>
    var free: multiset<nat>
    var freeMembers: set<nat>
    var nextSlot: nat

    ghost predicate Represents(a: Arena)
      reads this
    {
      Stands(a, wireSlots, free, freeMembers, nextSlot)
    }

    constructor (c: Circuit, lastUse: seq<Option<nat>>)
      requires |lastUse| == c.WireCount() && forall w :: 0 <= w < |lastUse| ==> lastUse[w] == LastUse(c, w)
      ensures Represents(ArenaAt(c, 0)) && |wireSlots| == c.WireCount()
    {
      hide Stands;
      var slots, heap, members := InitialSlots(c, lastUse);
      wireSlots, free, freeMembers, nextSlot := slots, heap, members, c.inputCount;
    }

    /** `release`: frees the slot of a wire at its last use. It fails when the wire has no slot or its
        slot is already free; on a represented arena only the first can happen. */
    method Release(ghost c: Circuit, ghost a: Arena, last: Option<nat>, wire: nat, gate: nat) returns (r: Result<()>)
      requires Represents(a) && wire < |wireSlots| && last == LastUse(c, wire)
      modifies this
      ensures r.Ok? <==> last != Some(gate) || wire in a.held
      ensures r.Ok? ==> Represents(Released(c, a, wire, gate)) && |wireSlots| == old(|wireSlots|)
      ensures r.Err? ==> unchanged(this)
    {
      if last != Some(gate) { return Ok(()); }
      var slot := wireSlots[wire];
      if slot == None { return Err("missing operand slot"); }
      ReleasedKeepsPartition(c, a, wire, gate);
      assert slot.value !in freeMembers;
      hide Partitioned, LastUse;
      wireSlots := wireSlots[wire := None];
      if slot.value in freeMembers { return Err("duplicate free slot"); }
      freeMembers := freeMembers + {slot.value};
      free := free + multiset{slot.value};
      return Ok(());
    }

    /** Takes the least free slot or a new one for the next gate wire. */
    method Place(ghost a: Arena, wire: nat) returns (destination: nat)
      requires Represents(a) && wire == |a.slotOf| < |wireSlots|
      modifies this
      ensures Represents(Placed(a)) && |wireSlots| == old(|wireSlots|)
      ensures destination == Destination(a)
    {
      assert free == multiset(freeMembers);
      hide Stands, Placed, Destination;
      HeapHoldsMembers(freeMembers);
      if free != multiset{} {
        destination, free := PopLeast(free);
        PopFromMembers(freeMembers, destination);
        PlaceStands(a, wireSlots, freeMembers, nextSlot, destination);
        freeMembers := freeMembers - {destination};
      } else {
        destination := nextSlot;
        assert freeMembers - {destination} == freeMembers;
        PlaceStands(a, wireSlots, freeMembers, nextSlot, destination);
        nextSlot := nextSlot + 1;
      }
      wireSlots := wireSlots[wire := Some(destination)];
    }
  }

  /** The operands of gate `g` hold slots when it runs, and keep them in the final slot map. */
  lemma OperandHoldsSlot(c: Circuit, g: nat, w: nat)
    requires Acyclic(c) && g < |c.gates| && Reads(c.gates[g], w)
    ensures w in ArenaAt(c, g).held && ArenaAt(c, g).slotOf[w] == SlotMap(c)[w]
  {
    LastUseIsLast(c, w);
    assert Occupies(c, w, g);
    ArenaHoldsExactly(c, g);
    SlotsArePermanent(c, g, |c.gates|);
  }

  lemma OutputHoldsSlot(c: Circuit, o: nat)
    requires Acyclic(c) && o < |c.outputs|
    ensures c.outputs[o] in ArenaAt(c, |c.gates|).held
  {
    LastUseIsLast(c, c.outputs[o]);
    assert Occupies(c, c.outputs[o], |c.gates|);
    ArenaHoldsExactly(c, |c.gates|);
  }

  /** Releases both operands of one gate, a shared operand once. */
  method ReleaseOperands(c: Circuit, lastUse: seq<Option<nat>>, allocator: SlotAllocator, ghost a: Arena, g: nat)
    returns (r: Result<()>)
    requires g < |c.gates| && allocator.Represents(a)
    requires c.gates[g].left in a.held && c.gates[g].right in a.held
    requires |lastUse| == |allocator.wireSlots| && forall w :: 0 <= w < |lastUse| ==> lastUse[w] == LastUse(c, w)
    modifies allocator
    ensures r.Ok?
    ensures allocator.Represents(ReleasedBy(c, a, g)) && |allocator.wireSlots| == old(|allocator.wireSlots|)
  {
    var gate := c.gates[g];
    r := allocator.Release(c, a, lastUse[gate.left], gate.left, g);
    if r.Ok? && gate.right != gate.left {
      r := allocator.Release(c, Released(c, a, gate.left, g), lastUse[gate.right], gate.right, g);
    }
  }

  /** One iteration of the scheduling loop. */
  method ScheduleGate(c: Circuit, lastUse: seq<Option<nat>>, allocator: SlotAllocator, ghost a: Arena, g: nat)
    returns (r: Result<SlotGate>)
    requires g < |c.gates| && allocator.Represents(a) && |a.slotOf| == c.inputCount + g
    requires c.gates[g].left in a.held && c.gates[g].right in a.held
    requires |lastUse| == |allocator.wireSlots| == c.WireCount()
    requires forall w :: 0 <= w < |lastUse| ==> lastUse[w] == LastUse(c, w)
    modifies allocator
    ensures allocator.Represents(Placed(ReleasedBy(c, a, g))) && |allocator.wireSlots| == c.WireCount()
    ensures r == Ok(SlotGateOf(c.gates[g], a.slotOf, Destination(ReleasedBy(c, a, g))))
  {
    var gate := c.gates[g];
    var leftSlot, rightSlot := allocator.wireSlots[gate.left], allocator.wireSlots[gate.right];
    if leftSlot == None || rightSlot == None { return Err("missing operand"); }
    var freed := ReleaseOperands(c, lastUse, allocator, a, g);
    match freed {
      case Err(e) => return Err(e);
      case Ok(_) =>
        var destination := allocator.Place(ReleasedBy(c, a, g), c.inputCount + g);
        return Ok(SlotGate(gate.op, leftSlot.value, rightSlot.value, destination));
    }
  }

  /** What one iteration emits is the scheduled gate, and its operands do hold slots. */
  lemma IterationIsScheduledGate(c: Circuit, g: nat)
    requires Acyclic(c) && g < |c.gates|
    ensures c.gates[g].left in ArenaAt(c, g).held && c.gates[g].right in ArenaAt(c, g).held
    ensures ScheduledGates(c, SlotMap(c), g + 1) == ScheduledGates(c, SlotMap(c), g) +
              [SlotGateOf(c.gates[g], ArenaAt(c, g).slotOf, Destination(ReleasedBy(c, ArenaAt(c, g), g)))]
  {
    OperandHoldsSlot(c, g, c.gates[g].left);
    OperandHoldsSlot(c, g, c.gates[g].right);
    SlotsArePermanent(c, g + 1, |c.gates|);
    assert ArenaAt(c, g + 1).slotOf[c.inputCount + g] == SlotMap(c)[c.inputCount + g];
  }

  /** The slots of the output wires, which no gate has released. */
  method PinnedOutputs(c: Circuit, allocator: SlotAllocator, ghost a: Arena) returns (r: Result<seq<nat>>)
    requires Acyclic(c) && allocator.Represents(a) && |a.slotOf| == |allocator.wireSlots| == c.WireCount()
    requires forall o :: 0 <= o < |c.outputs| ==> c.outputs[o] in a.held
    ensures r == Ok(Select(a.slotOf, c.outputs))
  {
    var outputs := [];
    for o := 0 to |c.outputs|
      invariant |outputs| == o && forall i :: 0 <= i < o ==> outputs[i] == a.slotOf[c.outputs[i]]
    {
      var slot := allocator.wireSlots[c.outputs[o]];
      if slot == None { return Err("missing pinned output"); }
      outputs := outputs + [slot.value];
    }
    assert outputs == Select(a.slotOf, c.outputs);
    return Ok(outputs);
  }

  /** Derives the canonical schedule. None of the consistency checks can fail. */
  method DeriveSchedule(c: Circuit) returns (r: Result<Schedule>)
    requires Acyclic(c)
    ensures r == Ok(Derived(c))
  {
    hide ReleasedBy, Placed, StartArena, Partitioned, ScheduledGates;
    var lastUse := LastUses(c);
    var allocator := new SlotAllocator(c, lastUse);
    var gates := [];
    for g := 0 to |c.gates|
      invariant allocator.Represents(ArenaAt(c, g)) && |allocator.wireSlots| == c.WireCount()
      invariant gates == ScheduledGates(c, SlotMap(c), g)
    {
      IterationIsScheduledGate(c, g);
      var scheduled := ScheduleGate(c, lastUse, allocator, ArenaAt(c, g), g);
      match scheduled {
        case Err(e) => return Err(e);
        case Ok(gate) => gates := gates + [gate];
      }
    }
    forall o | 0 <= o < |c.outputs| ensures c.outputs[o] in ArenaAt(c, |c.gates|).held { OutputHoldsSlot(c, o); }
    var outputs := PinnedOutputs(c, allocator, ArenaAt(c, |c.gates|));
    match outputs {
      case Err(e) => return Err(e);
      case Ok(slots) => return Ok(Schedule(c.inputCount, allocator.nextSlot, gates, slots));
    }
  }
}
