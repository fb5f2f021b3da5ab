/** Garbling and evaluating whole circuits, on wires and on slots. */
module GarbledCircuits {
  import opened Circuits
  import opened Results
  import opened Schedules
  import opened Allocation
  import opened Garbling

  /** What both parties share: the cipher, the session domain, and the numbering of gates. */
  datatype Session = Session(aes: Cipher, domain: Domain, ordinals: nat -> Ordinal)

  // ---- plain values ----

  function BoolGate(op: Op, a: bool, b: bool): bool {
    match op
    case Xor => a != b
    case And => a && b
    case Inv => !a
  }

  const BoolStep: GateStep<bool> := (g, op, a, b) => BoolGate(op, a, b)

  // ---- the two parties, gate by gate ----

  function GarblerGate(k: Session, delta: Delta, g: nat, op: Op, left: Label, right: Label): Label {
    match op
    case Xor => GarblerXor(left, right)
    case And => GarbleAnd(k.aes, delta, k.domain, k.ordinals(g), left, right).0
    case Inv => GarblerInvert(left, delta)
  }

  function GarblerStep(k: Session, delta: Delta): GateStep<Label> {
    (g, op, left, right) => GarblerGate(k, delta, g, op, left, right)
  }

  /** What gate `g` adds to the table stream. */
  function TableOf(k: Session, delta: Delta, g: nat, op: Op, left: Label, right: Label): seq<bv8> {
    if op == And then EncodeTable(GarbleAnd(k.aes, delta, k.domain, k.ordinals(g), left, right).1) else []
  }

  /** Table number `rank` of the stream; the stream is long enough on every garbled circuit. */
  function TableAt(tables: seq<bv8>, rank: nat): Option<GarbledAnd> {
    if 32 * rank + 32 <= |tables| then Some(DecodeTable(tables[32 * rank..32 * rank + 32])) else None
  }

  function EvaluatorGate(k: Session, tables: seq<bv8>, rank: nat, g: nat, op: Op, left: Label, right: Label): Label {
    match op
    case Xor => EvaluatorXor(left, right)
    case And => (match TableAt(tables, rank)
                 case Some(table) => EvaluateAnd(k.aes, k.domain, k.ordinals(g), left, right, table)
                 case None => left)
    case Inv => EvaluatorInvert(left)
  }

  /** The number of AND gates among the first `g` opcodes. */
  function Rank(ops: seq<Op>, g: nat): nat {
    if g == 0 then 0 else Rank(ops, g - 1) + if g <= |ops| && ops[g - 1] == And then 1 else 0
  }

  function EvaluatorStep(k: Session, tables: seq<bv8>, ops: seq<Op>): GateStep<Label> {
    (g, op, left, right) => EvaluatorGate(k, tables, Rank(ops, g), g, op, left, right)
  }

  function OpsOf(c: Circuit): (ops: seq<Op>)
    ensures |ops| == |c.gates| && forall g :: 0 <= g < |ops| ==> ops[g] == c.gates[g].op
  {
    seq(|c.gates|, g requires 0 <= g < |c.gates| => c.gates[g].op)
  }

  // ---- on wires ----

  /** The table stream after the first `g` gates. */
  function WireTables(k: Session, delta: Delta, c: Circuit, zeros: seq<Label>, g: nat): seq<bv8>
    requires Acyclic(c) && |zeros| == c.inputCount && g <= |c.gates|
  {
    if g == 0 then []
    else
      var wires, gate := RunWires(c, zeros, GarblerStep(k, delta), g - 1), c.gates[g - 1];
      WireTables(k, delta, c, zeros, g - 1) + TableOf(k, delta, g - 1, gate.op, wires[gate.left], wires[gate.right])
  }

  lemma {:induction false} TableStreamLength(k: Session, delta: Delta, c: Circuit, zeros: seq<Label>, g: nat)
    requires Acyclic(c) && |zeros| == c.inputCount && g <= |c.gates|
    ensures |WireTables(k, delta, c, zeros, g)| == 32 * Rank(OpsOf(c), g)
  {
    hide GarbleAnd, EncodeTable;
    if g > 0 { TableStreamLength(k, delta, c, zeros, g - 1); }
  }

  lemma {:induction false} TableStreamGrows(k: Session, delta: Delta, c: Circuit, zeros: seq<Label>, g: nat, h: nat)
    requires Acyclic(c) && |zeros| == c.inputCount && g <= h <= |c.gates|
    ensures WireTables(k, delta, c, zeros, g) <= WireTables(k, delta, c, zeros, h)
  {
    hide TableOf;
    if g < h { TableStreamGrows(k, delta, c, zeros, g, h - 1); }
  }

  /** The evaluator finds the table of every AND gate at its rank in the stream. */
  lemma TableIsAtRank(k: Session, delta: Delta, c: Circuit, zeros: seq<Label>, g: nat)
    requires Acyclic(c) && |zeros| == c.inputCount && g < |c.gates| && c.gates[g].op == And
    ensures var wires, gate := RunWires(c, zeros, GarblerStep(k, delta), g), c.gates[g];
            TableAt(WireTables(k, delta, c, zeros, |c.gates|), Rank(OpsOf(c), g))
            == Some(GarbleAnd(k.aes, delta, k.domain, k.ordinals(g), wires[gate.left], wires[gate.right]).1)
  {
    hide GarbleAnd, EncodeTable, DecodeTable, RunWires;
    var wires, gate := RunWires(c, zeros, GarblerStep(k, delta), g), c.gates[g];
    var table := GarbleAnd(k.aes, delta, k.domain, k.ordinals(g), wires[gate.left], wires[gate.right]).1;
    var before, stream := WireTables(k, delta, c, zeros, g), WireTables(k, delta, c, zeros, |c.gates|);
    TableStreamLength(k, delta, c, zeros, g);
    TableStreamGrows(k, delta, c, zeros, g + 1, |c.gates|);
    assert WireTables(k, delta, c, zeros, g + 1) == before + EncodeTable(table);
    SliceOfPrefix(before, EncodeTable(table), stream);
    TableRoundTrip(table, []);
  }

  lemma SliceOfPrefix(before: seq<bv8>, middle: seq<bv8>, stream: seq<bv8>)
    requires before + middle <= stream
    ensures stream[|before|..|before| + |middle|] == middle
  {
    assert middle == (before + middle)[|before|..];
  }

  function Actives(zeros: seq<Label>, delta: Delta, bits: seq<bool>): (r: seq<Label>)
    requires |zeros| == |bits|
    ensures |r| == |zeros| && forall i :: 0 <= i < |r| ==> r[i] == Active(zeros[i], delta, bits[i])
  {
    seq(|zeros|, i requires 0 <= i < |zeros| => Active(zeros[i], delta, bits[i]))
  }

  /** One gate: active labels in, active label out. */
  lemma GateCarriesValue(k: Session, delta: Delta, tables: seq<bv8>, rank: nat, g: nat, op: Op, left: Label, right: Label,
                         a: bool, b: bool)
    requires op == And ==>
               TableAt(tables, rank) == Some(GarbleAnd(k.aes, delta, k.domain, k.ordinals(g), left, right).1)
    ensures EvaluatorGate(k, tables, rank, g, op, Active(left, delta, a), Active(right, delta, b))
            == Active(GarblerGate(k, delta, g, op, left, right), delta, BoolGate(op, a, b))
  {
    hide GarbleAnd, EvaluateAnd, Active, GarblerXor, GarblerInvert, EvaluatorXor, EvaluatorInvert;
    match op
    case Xor => FreeXor(left, right, delta, a, b);
    case And => HalfGatesAnd(k.aes, delta, k.domain, k.ordinals(g), left, right, a, b);
    case Inv => FreeInvert(left, delta, a);
  }

  /** On every wire of every circuit, the evaluator's label is the garbler's zero label plus the
      plain value times the offset. */
  lemma {:induction false} LabelsCarryValues(k: Session, delta: Delta, c: Circuit, zeros: seq<Label>, bits: seq<bool>, g: nat)
    requires Acyclic(c) && |zeros| == |bits| == c.inputCount && g <= |c.gates|
    ensures var tables := WireTables(k, delta, c, zeros, |c.gates|);
            RunWires(c, Actives(zeros, delta, bits), EvaluatorStep(k, tables, OpsOf(c)), g)
            == Actives(RunWires(c, zeros, GarblerStep(k, delta), g), delta, RunWires(c, bits, BoolStep, g))
  {
    hide GarblerGate, EvaluatorGate, BoolGate, WireTables, TableAt, Rank, Active, OpsOf, Actives;
    if g > 0 {
      LabelsCarryValues(k, delta, c, zeros, bits, g - 1);
      NextLabelCarriesValue(k, delta, c, zeros, bits, g - 1);
    }
  }

  /** The induction step: the next gate appends the active label of its plain value. */
  lemma NextLabelCarriesValue(k: Session, delta: Delta, c: Circuit, zeros: seq<Label>, bits: seq<bool>, g: nat)
    requires Acyclic(c) && |zeros| == |bits| == c.inputCount && g < |c.gates|
    ensures var tables, gate := WireTables(k, delta, c, zeros, |c.gates|), c.gates[g];
            var zeroWires, plain := RunWires(c, zeros, GarblerStep(k, delta), g), RunWires(c, bits, BoolStep, g);
            var actives := Actives(zeroWires, delta, plain);
            Actives(zeroWires + [GarblerGate(k, delta, g, gate.op, zeroWires[gate.left], zeroWires[gate.right])], delta,
                    plain + [BoolGate(gate.op, plain[gate.left], plain[gate.right])])
            == actives + [EvaluatorGate(k, tables, Rank(OpsOf(c), g), g, gate.op, actives[gate.left], actives[gate.right])]
  {
    hide GarblerGate, EvaluatorGate, BoolGate, WireTables, TableAt, Rank, Active, OpsOf, RunWires, GarblerStep, Actives,
         GarbleAnd;
    var tables, gate := WireTables(k, delta, c, zeros, |c.gates|), c.gates[g];
    var zeroWires, plain := RunWires(c, zeros, GarblerStep(k, delta), g), RunWires(c, bits, BoolStep, g);
    if gate.op == And { TableIsAtRank(k, delta, c, zeros, g); }
    GateCarriesValue(k, delta, tables, Rank(OpsOf(c), g), g, gate.op,
                     zeroWires[gate.left], zeroWires[gate.right], plain[gate.left], plain[gate.right]);
    ActivesAppend(zeroWires, delta, plain, GarblerGate(k, delta, g, gate.op, zeroWires[gate.left], zeroWires[gate.right]),
                  BoolGate(gate.op, plain[gate.left], plain[gate.right]));
  }

  lemma ActivesAppend(zeros: seq<Label>, delta: Delta, bits: seq<bool>, zero: Label, bit: bool)
    requires |zeros| == |bits|
    ensures Actives(zeros + [zero], delta, bits + [bit]) == Actives(zeros, delta, bits) + [Active(zero, delta, bit)]
  {
    hide Active;
  }

  // ---- on slots ----

  const BLANK: Label := seq(16, _ => 0)

  /** Inputs in the first slots, the rest of the arena blank. */
  function ArenaOf(s: Schedule, inputs: seq<Label>): (arena: seq<Label>)
    requires |inputs| == s.inputCount <= s.slotCount
    ensures |arena| == s.slotCount && inputs <= arena
  {
    inputs + seq(s.slotCount - s.inputCount, _ => BLANK)
  }

  function SlotOps(s: Schedule): (ops: seq<Op>)
    ensures |ops| == |s.gates| && forall g :: 0 <= g < |ops| ==> ops[g] == s.gates[g].op
  {
    seq(|s.gates|, g requires 0 <= g < |s.gates| => s.gates[g].op)
  }

  /** The table stream of a garbler that walks the slot schedule. */
  function SlotTables(k: Session, delta: Delta, s: Schedule, arena: seq<Label>, g: nat): seq<bv8>
    requires InRange(s) && |arena| == s.slotCount && g <= |s.gates|
  {
    if g == 0 then []
    else
      var slots, gate := RunSlots(s, arena, GarblerStep(k, delta), g - 1), s.gates[g - 1];
      SlotTables(k, delta, s, arena, g - 1) + TableOf(k, delta, g - 1, gate.op, slots[gate.left], slots[gate.right])
  }

  /** Walking the slots emits the very tables that walking the wires emits. */
  lemma {:induction false} SlotTablesAreWireTables(k: Session, delta: Delta, c: Circuit, s: Schedule, slotOf: seq<nat>,
                                                   zeros: seq<Label>, arena: seq<Label>, g: nat)
    requires Acyclic(c) && Allocates(c, s, slotOf) && InRange(s)
    requires |zeros| == c.inputCount && |arena| == s.slotCount && zeros <= arena
    requires g <= |c.gates| == |s.gates|
    ensures SlotTables(k, delta, s, arena, g) == WireTables(k, delta, c, zeros, g)
  {
    hide TableOf, GarblerStep, Allocates, RunSlots, RunWires, Acyclic, InRange;
    if g > 0 {
      SlotTablesAreWireTables(k, delta, c, s, slotOf, zeros, arena, g - 1);
      OperandsAgree(c, s, slotOf, zeros, arena, GarblerStep(k, delta), g - 1);
    }
  }

  lemma SlotOpsAreOps(c: Circuit, s: Schedule, slotOf: seq<nat>)
    requires Acyclic(c) && Allocates(c, s, slotOf)
    ensures SlotOps(s) == OpsOf(c)
  {
    forall g | 0 <= g < |c.gates| ensures s.gates[g].op == c.gates[g].op {
      assert s.gates[g] == SlotGateOf(c.gates[g], slotOf, slotOf[c.inputCount + g]);
    }
  }

  /** What the two parties hold at the end of a slot run. */
  function GarbledOutputs(k: Session, delta: Delta, s: Schedule, zeros: seq<Label>): (r: seq<Label>)
    requires InRange(s) && |zeros| == s.inputCount
    ensures |r| == |s.outputs|
  {
    RunSlotOutputs(s, ArenaOf(s, zeros), GarblerStep(k, delta))
  }

  function EvaluatedOutputs(k: Session, s: Schedule, actives: seq<Label>, tables: seq<bv8>): (r: seq<Label>)
    requires InRange(s) && |actives| == s.inputCount
    ensures |r| == |s.outputs|
  {
    RunSlotOutputs(s, ArenaOf(s, actives), EvaluatorStep(k, tables, SlotOps(s)))
  }

  /** Garbling and evaluating over the slots of any allocation, the evaluator ends with the active
      labels of the circuit's plain outputs. */
  lemma SlotRunCarriesOutputs(k: Session, delta: Delta, c: Circuit, s: Schedule, slotOf: seq<nat>,
                              zeros: seq<Label>, bits: seq<bool>)
    requires Acyclic(c) && Allocates(c, s, slotOf) && |zeros| == |bits| == c.inputCount
    ensures InRange(s)
    ensures var tables := SlotTables(k, delta, s, ArenaOf(s, zeros), |s.gates|);
            EvaluatedOutputs(k, s, Actives(zeros, delta, bits), tables)
            == Actives(GarbledOutputs(k, delta, s, zeros), delta, RunOutputs(c, bits, BoolStep))
  {
    AllocatesInRange(c, s, slotOf);
    assert s.inputCount == c.inputCount && |s.gates| == |c.gates|;
    hide Allocates, RunWires, RunSlotOutputs, Active, GarblerStep, EvaluatorStep, SlotTables, WireTables, InRange, Acyclic,
         SlotOps, OpsOf, ArenaOf;
    var tables, actives := SlotTables(k, delta, s, ArenaOf(s, zeros), |s.gates|), Actives(zeros, delta, bits);
    SlotTablesAreWireTables(k, delta, c, s, slotOf, zeros, ArenaOf(s, zeros), |c.gates|);
    SlotOpsAreOps(c, s, slotOf);
    AllocationPreservesMeaning(c, s, slotOf, zeros, ArenaOf(s, zeros), GarblerStep(k, delta));
    AllocationPreservesMeaning(c, s, slotOf, actives, ArenaOf(s, actives), EvaluatorStep(k, tables, SlotOps(s)));
    LabelsCarryValues(k, delta, c, zeros, bits, |c.gates|);
    OutputsCarryValues(c, RunWires(c, zeros, GarblerStep(k, delta), |c.gates|), delta, RunWires(c, bits, BoolStep, |c.gates|));
  }

  /** Selecting the outputs of active labels selects active labels. */
  lemma OutputsCarryValues(c: Circuit, zeros: seq<Label>, delta: Delta, bits: seq<bool>)
    requires Acyclic(c) && |zeros| == |bits| == c.WireCount()
    ensures Select(Actives(zeros, delta, bits), c.outputs) == Actives(Select(zeros, c.outputs), delta, Select(bits, c.outputs))
  {
    hide Active;
  }

  /** The selection bits of both parties' output labels differ exactly in the outputs that are one. */
  lemma SelectionBitsDecode(k: Session, delta: Delta, c: Circuit, zeros: seq<Label>, bits: seq<bool>, o: nat)
    requires Acyclic(c) && |zeros| == |bits| == c.inputCount && o < |c.outputs|
    ensures var s := Derived(c); InRange(s) && s.inputCount == c.inputCount && |s.outputs| == |c.outputs|
    ensures var s := Derived(c);
            var tables := SlotTables(k, delta, s, ArenaOf(s, zeros), |s.gates|);
            SelectionBit(EvaluatedOutputs(k, s, Actives(zeros, delta, bits), tables)[o])
            != SelectionBit(GarbledOutputs(k, delta, s, zeros)[o])
            <==> RunOutputs(c, bits, BoolStep)[o]
  {
    var s := Derived(c);
    DerivedAllocates(c);
    SlotRunCarriesOutputs(k, delta, c, s, SlotMap(c), zeros, bits);
    hide Derived, SelectionBit, Active, EvaluatedOutputs, GarbledOutputs, RunOutputs, SlotTables, Allocates;
    SelectionBitOfActive(GarbledOutputs(k, delta, s, zeros)[o], delta, RunOutputs(c, bits, BoolStep)[o]);
  }

  // ---- bits as bytes ----

  function ByteBit(b: bool): bv8 { if b then 1 else 0 }

  function ByteBits(bits: seq<bool>): (r: seq<bv8>)
    ensures |r| == |bits| && forall i :: 0 <= i < |r| ==> r[i] == ByteBit(bits[i])
  {
    seq(|bits|, i requires 0 <= i < |bits| => ByteBit(bits[i]))
  }

  lemma ByteGateOnBits(op: Op, a: bool, b: bool)
    ensures ByteGate(op, ByteBit(a), ByteBit(b)) == ByteBit(BoolGate(op, a, b))
  {
  }

  /** On inputs that are bits, the byte evaluator computes the plain bits. */
  lemma {:induction false} ByteRunOnBits(c: Circuit, bits: seq<bool>, g: nat)
    requires Acyclic(c) && |bits| == c.inputCount && g <= |c.gates|
    ensures RunWires(c, ByteBits(bits), ByteStep, g) == ByteBits(RunWires(c, bits, BoolStep, g))
  {
    hide ByteGate, BoolGate, ByteBit;
    if g > 0 {
      ByteRunOnBits(c, bits, g - 1);
      var plain, gate := RunWires(c, bits, BoolStep, g - 1), c.gates[g - 1];
      ByteGateOnBits(gate.op, plain[gate.left], plain[gate.right]);
    }
  }

  /** Garbled execution over the derived slots decodes to the bytes of evaluate_ir, for every circuit,
      every choice of labels and every input bits. */
  lemma GarbledRunMatchesIr(k: Session, delta: Delta, c: Circuit, zeros: seq<Label>, bits: seq<bool>, o: nat)
    requires Acyclic(c) && |zeros| == |bits| == c.inputCount && o < |c.outputs|
    ensures var s := Derived(c); InRange(s) && s.inputCount == c.inputCount && |s.outputs| == |c.outputs|
    ensures var s := Derived(c);
            var tables := SlotTables(k, delta, s, ArenaOf(s, zeros), |s.gates|);
            ByteBit(SelectionBit(EvaluatedOutputs(k, s, Actives(zeros, delta, bits), tables)[o])
                    != SelectionBit(GarbledOutputs(k, delta, s, zeros)[o]))
            == RunOutputs(c, ByteBits(bits), ByteStep)[o]
  {
    SelectionBitsDecode(k, delta, c, zeros, bits, o);
    ByteRunOnBits(c, bits, |c.gates|);
    hide Derived, SelectionBit, EvaluatedOutputs, GarbledOutputs, SlotTables, RunWires, ByteBit;
  }
}
