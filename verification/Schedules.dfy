/** Slot schedules: the circuit rewritten to overwrite a fixed arena of slots. */
module Schedules {
  import opened Circuits
  import opened Results

  datatype SlotGate = SlotGate(op: Op, left: nat, right: nat, dest: nat)

  datatype Schedule = Schedule(inputCount: nat, slotCount: nat, gates: seq<SlotGate>, outputs: seq<nat>)

  predicate SlotGateInRange(gate: SlotGate, slotCount: nat) {
    gate.left < slotCount && gate.right < slotCount && gate.dest < slotCount
  }

  predicate InRange(s: Schedule) {
    && s.inputCount <= s.slotCount
    && (forall g :: 0 <= g < |s.gates| ==> SlotGateInRange(s.gates[g], s.slotCount))
    && (forall o :: 0 <= o < |s.outputs| ==> s.outputs[o] < s.slotCount)
  }

  /** The arena after the first `g` gates, each overwriting its destination slot. */
  function RunSlots<T>(s: Schedule, arena: seq<T>, step: GateStep<T>, g: nat): (slots: seq<T>)
    requires InRange(s) && |arena| == s.slotCount && g <= |s.gates|
    ensures |slots| == s.slotCount
  {
    if g == 0 then arena
    else
      var slots := RunSlots(s, arena, step, g - 1);
      var gate := s.gates[g - 1];
      slots[gate.dest := step(g - 1, gate.op, slots[gate.left], slots[gate.right])]
  }

  function RunSlotOutputs<T>(s: Schedule, arena: seq<T>, step: GateStep<T>): (r: seq<T>)
    requires InRange(s) && |arena| == s.slotCount
    ensures |r| == |s.outputs|
  {
    Select(RunSlots(s, arena, step, |s.gates|), s.outputs)
  }

  /** evaluate_schedule: installs the inputs in a zeroed arena and overwrites it gate by gate. */
  method EvaluateSchedule(s: Schedule, inputs: seq<bv8>) returns (r: Result<seq<bv8>>)
    requires InRange(s)
    ensures r == if |inputs| != s.inputCount then Err("wrong schedule input width")
                 else Ok(RunSlotOutputs(s, inputs + seq(s.slotCount - s.inputCount, _ => 0), ByteStep))
  {
    if |inputs| != s.inputCount { return Err("wrong schedule input width"); }
    var slots := new bv8[s.slotCount](i => if 0 <= i < |inputs| then inputs[i] else 0);
    ghost var arena := inputs + seq(s.slotCount - s.inputCount, _ => 0);
    assert slots[..] == arena;
    for g := 0 to |s.gates|
      invariant slots[..] == RunSlots(s, arena, ByteStep, g)
    {
      var gate := s.gates[g];
      var first, second := slots[gate.left], slots[gate.right];
      slots[gate.dest] := ByteGate(gate.op, first, second);
    }
    return Ok(Select(slots[..], s.outputs));
  }

  // ---- what makes a schedule an allocation of a circuit ----

  /** Wire `w` is read at position `g` or later, outputs being read at position |gates|. */
  predicate NeededFrom(c: Circuit, w: nat, g: nat) {
    LastUse(c, w).Some? && LastUse(c, w).value >= g
  }

  /** Wire `w` is read after gate `g`. */
  predicate NeededAfter(c: Circuit, w: nat, g: nat) {
    NeededFrom(c, w, g + 1)
  }

  /** Gate `g` overwrites no slot of a wire that is still needed after it. */
  ghost predicate Spares(c: Circuit, slotOf: seq<nat>, g: nat)
    requires g < |c.gates| && |slotOf| == c.WireCount()
  {
    forall w :: 0 <= w < c.inputCount + g && NeededAfter(c, w, g) ==> slotOf[w] != slotOf[c.inputCount + g]
  }

  function SlotGateOf(gate: Gate, slotOf: seq<nat>, dest: nat): SlotGate
    requires gate.left < |slotOf| && gate.right < |slotOf|
  {
    SlotGate(gate.op, slotOf[gate.left], slotOf[gate.right], dest)
  }

  /** `s` is circuit `c` with wire `w` living in slot `slotOf[w]`: inputs stay in the first slots
      and no gate destroys a value that is read later. */
  ghost predicate Allocates(c: Circuit, s: Schedule, slotOf: seq<nat>)
    requires Acyclic(c)
  {
    && |slotOf| == c.WireCount()
    && s.inputCount == c.inputCount <= s.slotCount
    && |s.gates| == |c.gates|
    && |s.outputs| == |c.outputs|
    && (forall w :: 0 <= w < |slotOf| ==> slotOf[w] < s.slotCount)
    && (forall i :: 0 <= i < c.inputCount ==> slotOf[i] == i)
    && (forall g :: 0 <= g < |c.gates| ==>
          s.gates[g] == SlotGateOf(c.gates[g], slotOf, slotOf[c.inputCount + g]))
    && (forall o :: 0 <= o < |c.outputs| ==> s.outputs[o] == slotOf[c.outputs[o]])
    && (forall g :: 0 <= g < |c.gates| ==> Spares(c, slotOf, g))
  }

  lemma AllocatesInRange(c: Circuit, s: Schedule, slotOf: seq<nat>)
    requires Acyclic(c) && Allocates(c, s, slotOf)
    ensures InRange(s)
  {
    forall g | 0 <= g < |s.gates| ensures SlotGateInRange(s.gates[g], s.slotCount) {
      assert s.gates[g] == SlotGateOf(c.gates[g], slotOf, slotOf[c.inputCount + g]);
    }
  }

  /** Before gate `g`, every wire that is still needed sits unharmed in its slot. */
  ghost predicate Agree<T>(c: Circuit, slotOf: seq<nat>, slots: seq<T>, wires: seq<T>, g: nat) {
    && |wires| == c.inputCount + g <= |slotOf|
    && forall w :: 0 <= w < |wires| && NeededFrom(c, w, g) ==>
         slotOf[w] < |slots| && slots[slotOf[w]] == wires[w]
  }

  /** Overwriting a slot that no needed wire uses, with the new wire's value, keeps the agreement. */
  lemma GateKeepsAgreement<T>(c: Circuit, slotOf: seq<nat>, slots: seq<T>, wires: seq<T>, g: nat, value: T)
    requires g < |c.gates| && |slotOf| == c.WireCount() && Spares(c, slotOf, g)
    requires Agree(c, slotOf, slots, wires, g) && slotOf[c.inputCount + g] < |slots|
    ensures Agree(c, slotOf, slots[slotOf[c.inputCount + g] := value], wires + [value], g + 1)
  {
    hide LastUse;
    var slots', wires' := slots[slotOf[c.inputCount + g] := value], wires + [value];
    forall w | 0 <= w < |wires'| && NeededFrom(c, w, g + 1)
      ensures slotOf[w] < |slots'| && slots'[slotOf[w]] == wires'[w]
    {
      if w < |wires| {
        assert NeededFrom(c, w, g) && NeededAfter(c, w, g);
      }
    }
  }

  lemma StartAgrees<T>(c: Circuit, s: Schedule, slotOf: seq<nat>, inputs: seq<T>, arena: seq<T>)
    requires Acyclic(c) && Allocates(c, s, slotOf)
    requires |inputs| == c.inputCount && |arena| == s.slotCount && inputs <= arena
    ensures Agree(c, slotOf, arena, inputs, 0)
  {
    hide LastUse, Spares;
    assert forall w :: 0 <= w < c.inputCount ==> slotOf[w] == w && arena[w] == inputs[w];
  }

  lemma {:induction false} SlotsHoldNeededWires<T>(c: Circuit, s: Schedule, slotOf: seq<nat>, inputs: seq<T>,
                                                   arena: seq<T>, step: GateStep<T>, g: nat)
    requires Acyclic(c) && Allocates(c, s, slotOf) && InRange(s)
    requires |inputs| == c.inputCount && |arena| == s.slotCount && inputs <= arena
    requires g <= |c.gates|
    ensures Agree(c, slotOf, RunSlots(s, arena, step, g), RunWires(c, inputs, step, g), g)
    decreases g, 0
  {
    hide Agree, Spares, Acyclic, Allocates, InRange;
    if g == 0 {
      StartAgrees(c, s, slotOf, inputs, arena);
    } else {
      SlotsHoldNeededWires(c, s, slotOf, inputs, arena, step, g - 1);
      var value := BothWrite(c, s, slotOf, inputs, arena, step, g - 1);
      hide RunSlots, RunWires;
      GateKeepsAgreement(c, slotOf, RunSlots(s, arena, step, g - 1), RunWires(c, inputs, step, g - 1), g - 1, value);
    }
  }

  /** Gate `g` computes the same value on both sides: one appends it, the other stores it in the wire's slot. */
  lemma {:induction false} BothWrite<T>(c: Circuit, s: Schedule, slotOf: seq<nat>, inputs: seq<T>,
                                        arena: seq<T>, step: GateStep<T>, g: nat) returns (value: T)
    requires Acyclic(c) && Allocates(c, s, slotOf) && InRange(s)
    requires |inputs| == c.inputCount && |arena| == s.slotCount && inputs <= arena
    requires g < |c.gates|
    ensures |slotOf| == c.WireCount() && Spares(c, slotOf, g) && slotOf[c.inputCount + g] < s.slotCount
    ensures |s.gates| == |c.gates|
    ensures RunWires(c, inputs, step, g + 1) == RunWires(c, inputs, step, g) + [value]
    ensures RunSlots(s, arena, step, g + 1) == RunSlots(s, arena, step, g)[slotOf[c.inputCount + g] := value]
    decreases g, 2
  {
    OperandsAgree(c, s, slotOf, inputs, arena, step, g);
    hide Spares, InRange;
    assert s.gates[g] == SlotGateOf(c.gates[g], slotOf, slotOf[c.inputCount + g]);
    var wires, gate := RunWires(c, inputs, step, g), c.gates[g];
    value := step(g, gate.op, wires[gate.left], wires[gate.right]);
  }

  /** The two operands a slot gate reads are the operands its IR gate reads. */
  lemma {:induction false} OperandsAgree<T>(c: Circuit, s: Schedule, slotOf: seq<nat>, inputs: seq<T>,
                                            arena: seq<T>, step: GateStep<T>, g: nat)
    requires Acyclic(c) && Allocates(c, s, slotOf) && InRange(s)
    requires |inputs| == c.inputCount && |arena| == s.slotCount && inputs <= arena
    requires g < |c.gates|
    ensures s.gates[g].op == c.gates[g].op
    ensures RunSlots(s, arena, step, g)[s.gates[g].left] == RunWires(c, inputs, step, g)[c.gates[g].left]
    ensures RunSlots(s, arena, step, g)[s.gates[g].right] == RunWires(c, inputs, step, g)[c.gates[g].right]
    decreases g, 1
  {
    SlotsHoldNeededWires(c, s, slotOf, inputs, arena, step, g);
    hide LastUse, Spares, RunSlots, RunWires;
    assert s.gates[g] == SlotGateOf(c.gates[g], slotOf, slotOf[c.inputCount + g]);
    LastUseIsLast(c, c.gates[g].left);
    LastUseIsLast(c, c.gates[g].right);
  }

  /** For every value type, gate meaning, input and leftover arena contents, an allocation
      computes the outputs of its circuit. */
  lemma AllocationPreservesMeaning<T>(c: Circuit, s: Schedule, slotOf: seq<nat>, inputs: seq<T>,
                                      arena: seq<T>, step: GateStep<T>)
    requires Acyclic(c) && Allocates(c, s, slotOf)
    requires |inputs| == c.inputCount && |arena| == s.slotCount && inputs <= arena
    ensures InRange(s)
    ensures RunSlotOutputs(s, arena, step) == RunOutputs(c, inputs, step)
  {
    AllocatesInRange(c, s, slotOf);
    SlotsHoldNeededWires(c, s, slotOf, inputs, arena, step, |c.gates|);
    hide LastUse, Spares, RunSlots, RunWires;
    forall o | 0 <= o < |c.outputs|
      ensures RunSlotOutputs(s, arena, step)[o] == RunOutputs(c, inputs, step)[o]
    {
      LastUseIsLast(c, c.outputs[o]);
      assert NeededFrom(c, c.outputs[o], |c.gates|);
    }
  }

  // ---- the lower bound on slots ----

  /** The wires that are needed right after gate `g`. */
  function LiveAfter(c: Circuit, g: nat): set<nat> {
    set w: nat | w < c.inputCount + g + 1 && NeededAfter(c, w, g)
  }

  /** Wires that are live together live in different slots. */
  lemma LiveWiresHaveDistinctSlots(c: Circuit, s: Schedule, slotOf: seq<nat>, g: nat, v: nat, w: nat)
    requires Acyclic(c) && Allocates(c, s, slotOf) && g < |c.gates|
    requires v in LiveAfter(c, g) && w in LiveAfter(c, g) && v < w
    ensures slotOf[v] != slotOf[w]
  {
    if w >= c.inputCount {
      assert Spares(c, slotOf, w - c.inputCount);
      assert NeededAfter(c, v, w - c.inputCount);
    }
  }

  lemma {:induction false} Pigeonhole(items: set<nat>, place: seq<nat>, k: nat)
    requires forall x :: x in items ==> x < |place| && place[x] < k
    requires forall x, y :: x in items && y in items && x < y ==> place[x] != place[y]
    ensures |items| <= k
    decreases k
  {
    if k > 0 {
      if x :| x in items && place[x] == k - 1 {
        Pigeonhole(items - {x}, place, k - 1);
      } else {
        Pigeonhole(items, place, k - 1);
      }
    } else if x :| x in items {
      assert false;
    }
  }

  /** No allocation of the circuit uses fewer slots than wires are live after some gate. */
  lemma AllocationNeedsLiveSlots(c: Circuit, s: Schedule, slotOf: seq<nat>, g: nat)
    requires Acyclic(c) && Allocates(c, s, slotOf) && g < |c.gates|
    ensures |LiveAfter(c, g)| <= s.slotCount
  {
    forall v, w | v in LiveAfter(c, g) && w in LiveAfter(c, g) && v < w ensures slotOf[v] != slotOf[w] {
      LiveWiresHaveDistinctSlots(c, s, slotOf, g, v, w);
    }
    Pigeonhole(LiveAfter(c, g), slotOf, s.slotCount);
  }
}
