/** The passive runtime: garbling and evaluating a validated slot schedule in an arena of optional
    wires, and decoding the output labels to bytes. */
module PassiveRuntime {
  import opened Circuits
  import opened Results
  import opened Schedules
  import opened Allocation
  import opened Garbling
  import opened GarbledCircuits
  import opened PackedBits

  // ---- which schedules run to the end ----

  /** Slot `i` holds a wire before gate `g`: an input or an earlier gate's output. */
  predicate Written(s: Schedule, g: nat, i: nat)
    requires g <= |s.gates|
  {
    if g == 0 then i < s.inputCount else i == s.gates[g - 1].dest || Written(s, g - 1, i)
  }

  /** A gate finds its operands; an inverter only looks at one. */
  predicate Readable(s: Schedule, g: nat)
    requires g < |s.gates|
  {
    Written(s, g, s.gates[g].left) && (s.gates[g].op != Inv ==> Written(s, g, s.gates[g].right))
  }

  predicate Runnable(s: Schedule) {
    && (forall g :: 0 <= g < |s.gates| ==> Readable(s, g))
    && Distinct(s.outputs)
    && forall o :: 0 <= o < |s.outputs| ==> Written(s, |s.gates|, s.outputs[o])
  }

  lemma {:induction false} WrittenGrows(s: Schedule, g: nat, h: nat, i: nat)
    requires g <= h <= |s.gates| && Written(s, g, i)
    ensures Written(s, h, i)
  {
    if g < h { WrittenGrows(s, g, h - 1, i); }
  }

  /** An earlier wire's slot has been written. */
  lemma WireIsWritten(c: Circuit, s: Schedule, slotOf: seq<nat>, w: nat, g: nat)
    requires Acyclic(c) && Allocates(c, s, slotOf) && w < c.inputCount + g && g <= |s.gates|
    ensures Written(s, g, slotOf[w])
  {
    hide Spares;
    if w < c.inputCount {
      WrittenGrows(s, 0, g, w);
    } else {
      var h := w - c.inputCount;
      assert s.gates[h] == SlotGateOf(c.gates[h], slotOf, slotOf[c.inputCount + h]);
      WrittenGrows(s, h + 1, g, slotOf[w]);
    }
  }

  /** Every allocation with distinct output slots runs to the end. */
  lemma AllocationsAreRunnable(c: Circuit, s: Schedule, slotOf: seq<nat>)
    requires Acyclic(c) && Allocates(c, s, slotOf) && Distinct(s.outputs)
    ensures Runnable(s)
  {
    hide Spares, Written;
    forall g | 0 <= g < |s.gates| ensures Readable(s, g) {
      assert s.gates[g] == SlotGateOf(c.gates[g], slotOf, slotOf[c.inputCount + g]);
      WireIsWritten(c, s, slotOf, c.gates[g].left, g);
      WireIsWritten(c, s, slotOf, c.gates[g].right, g);
    }
    forall o | 0 <= o < |s.outputs| ensures Written(s, |s.gates|, s.outputs[o]) {
      WireIsWritten(c, s, slotOf, c.outputs[o], |s.gates|);
    }
  }

  // ---- the arena ----

  /** The optional arena holds the run's value in every written slot and nothing elsewhere. */
  ghost predicate Holds(arena: seq<Option<Label>>, slots: seq<Label>, s: Schedule, g: nat)
    requires g <= |s.gates|
  {
    |arena| == |slots| && forall i :: 0 <= i < |arena| ==> arena[i] == if Written(s, g, i) then Some(slots[i]) else None
  }

  /** empty_arena and install_inputs. */
  method InstallInputs(s: Schedule, inputs: seq<Label>) returns (arena: array<Option<Label>>)
    requires InRange(s) && |inputs| == s.inputCount
    ensures fresh(arena) && Holds(arena[..], ArenaOf(s, inputs), s, 0)
  {
    arena := new Option<Label>[s.slotCount](_ => None);
    for slot := 0 to |inputs|
      invariant forall i :: 0 <= i < s.slotCount ==> arena[i] == if i < slot then Some(inputs[i]) else None
    {
      arena[slot] := Some(inputs[slot]);
    }
  }

  /** take_outputs: moves the output wires out of the arena, so no slot is taken twice. */
  method TakeOutputs(arena: array<Option<Label>>, s: Schedule, ghost slots: seq<Label>) returns (r: Result<seq<Label>>)
    requires Holds(arena[..], slots, s, |s.gates|) && forall o :: 0 <= o < |s.outputs| ==> s.outputs[o] < arena.Length
    modifies arena
    ensures r.Ok? <==> Distinct(s.outputs) && forall o :: 0 <= o < |s.outputs| ==> Written(s, |s.gates|, s.outputs[o])
    ensures r.Ok? ==> r.value == Select(slots, s.outputs)
  {
    hide Written;
    var outputs := s.outputs;
    var taken: seq<Label> := [];
    for o := 0 to |outputs|
      invariant |taken| == o && Distinct(outputs[..o])
      invariant forall i :: 0 <= i < o ==> Written(s, |s.gates|, outputs[i]) && taken[i] == slots[outputs[i]]
      invariant forall i :: 0 <= i < arena.Length ==>
                  arena[i] == if Written(s, |s.gates|, i) && i !in outputs[..o] then Some(slots[i]) else None
    {
      match arena[outputs[o]] {
        case None =>
          return Err("an output slot is empty");
        case Some(wire) =>
          taken := taken + [wire];
          arena[outputs[o]] := None;
          assert outputs[..o + 1] == outputs[..o] + [outputs[o]];
      }
    }
    assert outputs[..|outputs|] == outputs;
    return Ok(taken);
  }

  lemma GateKeepsHolds(arena: seq<Option<Label>>, slots: seq<Label>, s: Schedule, g: nat, wire: Label)
    requires g < |s.gates| && Holds(arena, slots, s, g) && s.gates[g].dest < |arena|
    ensures Holds(arena[s.gates[g].dest := Some(wire)], slots[s.gates[g].dest := wire], s, g + 1)
  {
  }

  // ---- the two parties ----

  function AndCount(s: Schedule): nat { Rank(SlotOps(s), |s.gates|) }

  lemma {:induction false} RankGrows(ops: seq<Op>, g: nat, h: nat)
    requires g <= h
    ensures Rank(ops, g) <= Rank(ops, h)
  {
    if g < h { RankGrows(ops, g, h - 1); }
  }

  lemma {:induction false} SlotTablesLength(k: Session, delta: Delta, s: Schedule, arena: seq<Label>, g: nat)
    requires InRange(s) && |arena| == s.slotCount && g <= |s.gates|
    ensures |SlotTables(k, delta, s, arena, g)| == 32 * Rank(SlotOps(s), g)
  {
    hide GarbleAnd, EncodeTable, RunSlots, GarblerStep;
    if g > 0 { SlotTablesLength(k, delta, s, arena, g - 1); }
  }

  /** One iteration of the garbling loop: the bytes of the table it emits, unless an operand is missing. */
  method GarbleNext(k: Session, delta: Delta, s: Schedule, g: nat, arena: array<Option<Label>>, ghost start: seq<Label>)
    returns (r: Result<seq<bv8>>)
    requires InRange(s) && |start| == s.slotCount && g < |s.gates|
    requires Holds(arena[..], RunSlots(s, start, GarblerStep(k, delta), g), s, g)
    modifies arena
    ensures r.Ok? <==> Readable(s, g)
    ensures r.Ok? ==> Holds(arena[..], RunSlots(s, start, GarblerStep(k, delta), g + 1), s, g + 1)
    ensures r.Ok? ==> SlotTables(k, delta, s, start, g + 1) == SlotTables(k, delta, s, start, g) + r.value
    ensures r.Ok? ==> |r.value| == if s.gates[g].op == And then 32 else 0
  {
    hide GarblerGate, TableOf, Holds, Readable;
    var gate := s.gates[g];
    ghost var slots := RunSlots(s, start, GarblerStep(k, delta), g);
    assert |arena[..]| == |slots| by { HoldsIsSized(arena[..], slots, s, g); }
    var wire, table := GarbleGate(k, delta, g, gate, arena, slots, s);
    match wire {
      case None => return Err("missing wire");
      case Some(output) =>
        GateKeepsHolds(arena[..], slots, s, g, output);
        ghost var before := arena[..];
        arena[gate.dest] := Some(output);
        assert arena[..] == before[gate.dest := Some(output)];
        return Ok(table);
    }
  }

  lemma HoldsIsSized(arena: seq<Option<Label>>, slots: seq<Label>, s: Schedule, g: nat)
    requires g <= |s.gates| && Holds(arena, slots, s, g)
    ensures |arena| == |slots|
  {
    hide Written;
  }

  /** The output wire of a gate and the bytes of its table. */
  method GarbleGate(k: Session, delta: Delta, g: nat, gate: SlotGate, arena: array<Option<Label>>,
                    ghost slots: seq<Label>, ghost s: Schedule)
    returns (wire: Option<Label>, table: seq<bv8>)
    requires g < |s.gates| && gate == s.gates[g] && SlotGateInRange(gate, arena.Length) && Holds(arena[..], slots, s, g)
    ensures wire.Some? <==> Readable(s, g)
    ensures wire.Some? ==> wire.value == GarblerGate(k, delta, g, gate.op, slots[gate.left], slots[gate.right])
    ensures wire.Some? ==> table == TableOf(k, delta, g, gate.op, slots[gate.left], slots[gate.right])
    ensures wire.Some? ==> |table| == if gate.op == And then 32 else 0
  {
    hide GarbleAnd, GarblerXor, GarblerInvert, EncodeTable;
    match (gate.op, arena[gate.left], arena[gate.right]) {
      case (Xor, Some(left), Some(right)) => return Some(GarblerXor(left, right)), [];
      case (And, Some(left), Some(right)) =>
        var (zero, rows) := GarbleAnd(k.aes, delta, k.domain, k.ordinals(g), left, right);
        return Some(zero), EncodeTable(rows);
      case (Inv, Some(input), _) => return Some(GarblerInvert(input, delta)), [];
      case _ => return None, [];
    }
  }

  /** garble_fixed: fails exactly on a wrong input count, an operand slot never written, or output slots
      that are empty or repeated; otherwise the tables and zero labels are those of the slot run. */
  method GarbleFixed(k: Session, delta: Delta, s: Schedule, inputs: seq<Label>) returns (r: Result<(seq<bv8>, seq<Label>)>)
    requires InRange(s)
    ensures r.Ok? <==> |inputs| == s.inputCount && Runnable(s)
    ensures r.Ok? ==> r.value.0 == SlotTables(k, delta, s, ArenaOf(s, inputs), |s.gates|)
    ensures r.Ok? ==> r.value.1 == GarbledOutputs(k, delta, s, inputs)
  {
    hide RunSlots, SlotTables, ArenaOf, Holds, Rank, Select, Written, Readable;
    if |inputs| != s.inputCount { return Err("input count"); }
    var arena := InstallInputs(s, inputs);
    var tables: seq<bv8> := [];
    ghost var start := ArenaOf(s, inputs);
    RunsStart(s, start, GarblerStep(k, delta));
    TablesStart(k, delta, s, start);
    for g := 0 to |s.gates|
      invariant Holds(arena[..], RunSlots(s, start, GarblerStep(k, delta), g), s, g)
      invariant tables == SlotTables(k, delta, s, start, g)
      invariant forall h :: 0 <= h < g ==> Readable(s, h)
    {
      var table := GarbleNext(k, delta, s, g, arena, start);
      if table.Err? { return Err("missing wire"); }
      tables := tables + table.value;
    }
    SlotTablesLength(k, delta, s, start, |s.gates|);
    if |tables| != 32 * AndCount(s) { return Err("table cursor"); }
    HoldsIsSized(arena[..], RunSlots(s, start, GarblerStep(k, delta), |s.gates|), s, |s.gates|);
    var outputs := TakeOutputs(arena, s, RunSlots(s, start, GarblerStep(k, delta), |s.gates|));
    match outputs {
      case Err(e) => return Err(e);
      case Ok(labels) => return Ok((tables, labels));
    }
  }

  lemma RunsStart(s: Schedule, start: seq<Label>, step: GateStep<Label>)
    requires InRange(s) && |start| == s.slotCount
    ensures RunSlots(s, start, step, 0) == start
  {
  }

  lemma TablesStart(k: Session, delta: Delta, s: Schedule, start: seq<Label>)
    requires InRange(s) && |start| == s.slotCount
    ensures SlotTables(k, delta, s, start, 0) == []
  {
  }

  /** One iteration of the evaluating loop; an AND gate has its table in `encoded`. */
  method EvaluateNext(k: Session, s: Schedule, g: nat, encoded: seq<bv8>, arena: array<Option<Label>>,
                      ghost start: seq<Label>, ghost tables: seq<bv8>)
    returns (ok: bool)
    requires InRange(s) && |start| == s.slotCount && g < |s.gates|
    requires s.gates[g].op == And ==> TableBytes(tables, Rank(SlotOps(s), g), encoded)
    requires Holds(arena[..], RunSlots(s, start, EvaluatorStep(k, tables, SlotOps(s)), g), s, g)
    modifies arena
    ensures ok <==> Readable(s, g)
    ensures ok ==> Holds(arena[..], RunSlots(s, start, EvaluatorStep(k, tables, SlotOps(s)), g + 1), s, g + 1)
  {
    hide EvaluatorGate, Holds, Readable, Rank, SlotOps, TableBytes;
    var gate := s.gates[g];
    ghost var slots := RunSlots(s, start, EvaluatorStep(k, tables, SlotOps(s)), g);
    assert |arena[..]| == |slots| by { HoldsIsSized(arena[..], slots, s, g); }
    var wire := EvaluateGate(k, g, gate, arena, encoded, tables, Rank(SlotOps(s), g), slots, s);
    match wire {
      case None => return false;
      case Some(output) =>
        GateKeepsHolds(arena[..], slots, s, g, output);
        ghost var before := arena[..];
        arena[gate.dest] := Some(output);
        assert arena[..] == before[gate.dest := Some(output)];
        return true;
    }
  }

  /** `encoded` is table number `rank` of the stream. */
  predicate TableBytes(tables: seq<bv8>, rank: nat, encoded: seq<bv8>) {
    |encoded| == 32 && 32 * rank + 32 <= |tables| && tables[32 * rank..32 * rank + 32] == encoded
  }

  method EvaluateGate(k: Session, g: nat, gate: SlotGate, arena: array<Option<Label>>, encoded: seq<bv8>,
                      ghost tables: seq<bv8>, ghost rank: nat, ghost slots: seq<Label>, ghost s: Schedule)
    returns (wire: Option<Label>)
    requires g < |s.gates| && gate == s.gates[g] && SlotGateInRange(gate, arena.Length) && Holds(arena[..], slots, s, g)
    requires gate.op == And ==> TableBytes(tables, rank, encoded)
    ensures wire.Some? <==> Readable(s, g)
    ensures wire.Some? ==> wire.value == EvaluatorGate(k, tables, rank, g, gate.op, slots[gate.left], slots[gate.right])
  {
    hide EvaluateAnd, EvaluatorXor, EvaluatorInvert, DecodeTable;
    match (gate.op, arena[gate.left], arena[gate.right]) {
      case (Xor, Some(left), Some(right)) => return Some(EvaluatorXor(left, right));
      case (And, Some(left), Some(right)) =>
        var table := DecodeTable(encoded);
        return Some(EvaluateAnd(k.aes, k.domain, k.ordinals(g), left, right, table));
      case (Inv, Some(input), _) => return Some(EvaluatorInvert(input));
      case _ => return None;
    }
  }

  /** evaluate_fixed: also demands a stream of exactly one table per AND gate, and then never runs
      past its end. */
  method EvaluateFixed(k: Session, s: Schedule, inputs: seq<Label>, tables: seq<bv8>) returns (r: Result<seq<Label>>)
    requires InRange(s)
    ensures r.Ok? <==> |inputs| == s.inputCount && |tables| == 32 * AndCount(s) && Runnable(s)
    ensures r.Ok? ==> r.value == EvaluatedOutputs(k, s, inputs, tables)
  {
    hide RunSlots, EvaluatorStep, ArenaOf, Holds, SlotOps, Select, Written, Readable, Rank;
    if |inputs| != s.inputCount { return Err("input count"); }
    if |tables| != 32 * AndCount(s) { return Err("table length"); }
    var arena := InstallInputs(s, inputs);
    var cursor := 0;
    ghost var ops := SlotOps(s);
    ghost var start, step := ArenaOf(s, inputs), EvaluatorStep(k, tables, ops);
    RunsStart(s, start, step);
    RankStart(ops);
    for g := 0 to |s.gates|
      invariant Holds(arena[..], RunSlots(s, start, step, g), s, g)
      invariant cursor == 32 * Rank(ops, g)
      invariant forall h :: 0 <= h < g ==> Readable(s, h)
    {
      RankStep(s, g);
      var encoded := if s.gates[g].op == And then tables[cursor..cursor + 32] else [];
      var ok := EvaluateNext(k, s, g, encoded, arena, start, tables);
      if !ok { return Err("missing wire"); }
      if s.gates[g].op == And { cursor := cursor + 32; }
    }
    if cursor != |tables| { return Err("table cursor"); }
    HoldsIsSized(arena[..], RunSlots(s, start, step, |s.gates|), s, |s.gates|);
    r := TakeOutputs(arena, s, RunSlots(s, start, step, |s.gates|));
  }

  lemma RankStart(ops: seq<Op>)
    ensures Rank(ops, 0) == 0
  {
  }

  lemma RankStep(s: Schedule, g: nat)
    requires g < |s.gates|
    ensures Rank(SlotOps(s), g + 1) == Rank(SlotOps(s), g) + (if s.gates[g].op == And then 1 else 0) <= AndCount(s)
  {
    RankGrows(SlotOps(s), g + 1, |s.gates|);
  }

  // ---- decoding ----

  lemma DifferenceStaysZero(d: bv8, a: bv8, b: bv8)
    ensures d | (a ^ b) == 0 <==> d == 0 && a == b
  {
  }

  lemma NonzeroFlag(d: bv8)
    ensures (d | -d) >> 7 == if d == 0 then 0 else 1
  {
  }

  /** labels_equal: folds the differences of all sixteen bytes, without an early exit. */
  method LabelsEqual(a: Label, b: Label) returns (equal: bool)
    ensures equal <==> a == b
  {
    var difference: bv8, index := 0, 0;
    while index < 16
      invariant 0 <= index <= 16
      invariant difference == 0 <==> a[..index] == b[..index]
    {
      DifferenceStaysZero(difference, a[index], b[index]);
      assert a[..index + 1] == a[..index] + [a[index]] && b[..index + 1] == b[..index] + [b[index]];
      difference := difference | (a[index] ^ b[index]);
      index := index + 1;
    }
    NonzeroFlag(difference);
    assert a[..16] == a && b[..16] == b;
    var nonzero := (difference | -difference) >> 7;
    equal := nonzero ^ 1 == 1;
  }

  /** The label is one of the two its wire can carry. */
  predicate Legible(zero: Label, delta: Delta, active: Label) {
    active == zero || active == Active(zero, delta, true)
  }

  predicate IsOne(zero: Label, delta: Delta, active: Label) { active == Active(zero, delta, true) }

  /** Of the first `n` labels, exactly the ones set their bit. */
  predicate Packed(bytes: seq<bv8>, delta: Delta, zeros: seq<Label>, actives: seq<Label>, n: nat)
    requires |zeros| == |actives| == 8 * |bytes|
  {
    forall i :: 0 <= i < |zeros| ==> (BitAt(bytes[i / 8], i % 8) <==> i < n && IsOne(zeros[i], delta, actives[i]))
  }

  /** decode_output_labels: eight labels to a byte, low bit first; refused unless every label is one of
      the two its wire can carry. */
  method DecodeOutputLabels(delta: Delta, zeros: seq<Label>, actives: seq<Label>) returns (r: Result<seq<bv8>>)
    ensures r.Ok? <==> (&& |zeros| == |actives| && |zeros| % 8 == 0
                        && forall i :: 0 <= i < |zeros| ==> Legible(zeros[i], delta, actives[i]))
    ensures r.Ok? ==> |zeros| == 8 * |r.value| && Packed(r.value, delta, zeros, actives, |zeros|)
  {
    hide BitAt, Mask, Packed;
    if |zeros| != |actives| || |zeros| % 8 != 0 { return Err("output count"); }
    var decoded := new bv8[|zeros| / 8](_ => 0);
    assert Packed(decoded[..], delta, zeros, actives, 0) by { NothingPacked(decoded[..], delta, zeros, actives); }
    var invalid, index := false, 0;
    while index < |zeros|
      invariant 0 <= index <= |zeros|
      invariant invalid <==> exists i :: 0 <= i < index && !Legible(zeros[i], delta, actives[i])
      invariant Packed(decoded[..], delta, zeros, actives, index)
    {
      var isZero := LabelsEqual(actives[index], zeros[index]);
      var isOne := LabelsEqual(actives[index], Active(zeros[index], delta, true));
      invalid := invalid || !(isZero || isOne);
      PackNext(decoded[..], delta, zeros, actives, index);
      ghost var before := decoded[..];
      if isOne { decoded[index / 8] := decoded[index / 8] | Mask(index % 8); }
      assert decoded[..] == if isOne then before[index / 8 := before[index / 8] | Mask(index % 8)] else before;
      index := index + 1;
    }
    if invalid { return Err("invalid output label"); }
    return Ok(decoded[..]);
  }

  lemma NothingPacked(bytes: seq<bv8>, delta: Delta, zeros: seq<Label>, actives: seq<Label>)
    requires |zeros| == |actives| == 8 * |bytes| && forall i :: 0 <= i < |bytes| ==> bytes[i] == 0
    ensures Packed(bytes, delta, zeros, actives, 0)
  {
    hide BitAt;
    ZeroByte();
  }

  /** Setting bit `n` of the packed bytes changes that bit and no other. */
  lemma PackNext(bytes: seq<bv8>, delta: Delta, zeros: seq<Label>, actives: seq<Label>, n: nat)
    requires |zeros| == |actives| == 8 * |bytes| && n < |zeros| && Packed(bytes, delta, zeros, actives, n)
    ensures Packed(if IsOne(zeros[n], delta, actives[n]) then bytes[n / 8 := bytes[n / 8] | Mask(n % 8)] else bytes,
                   delta, zeros, actives, n + 1)
  {
    hide BitAt, Mask, IsOne;
    if IsOne(zeros[n], delta, actives[n]) {
      var bytes' := bytes[n / 8 := bytes[n / 8] | Mask(n % 8)];
      forall i | 0 <= i < |zeros| ensures BitAt(bytes'[i / 8], i % 8) <==> i == n || BitAt(bytes[i / 8], i % 8) {
        if i / 8 == n / 8 { SettingABit(bytes[i / 8], n % 8, i % 8); }
      }
    }
  }

  lemma ActiveLabels(zero: Label, delta: Delta)
    ensures Active(zero, delta, false) == zero != Active(zero, delta, true)
  {
    hide SelectionBit;
    SelectionBitOfActive(zero, delta, true);
  }

  /** Everything the two parties meet on the derived schedule: nothing is missing, the stream has the
      length the evaluator demands, and the evaluator's outputs are the active labels of the plain ones. */
  lemma DerivedRunSucceeds(k: Session, delta: Delta, c: Circuit, zeros: seq<Label>, bits: seq<bool>)
    requires Acyclic(c) && Distinct(c.outputs) && |zeros| == |bits| == c.inputCount
    ensures var s := Derived(c); InRange(s) && s.inputCount == c.inputCount && |s.outputs| == |c.outputs| && Runnable(s)
    ensures var s := Derived(c);
            var tables := SlotTables(k, delta, s, ArenaOf(s, zeros), |s.gates|);
            && |tables| == 32 * AndCount(s)
            && EvaluatedOutputs(k, s, Actives(zeros, delta, bits), tables)
               == Actives(GarbledOutputs(k, delta, s, zeros), delta, RunOutputs(c, bits, BoolStep))
  {
    DerivedAllocates(c);
    OutputSlotsAreDistinct(c);
    var s := Derived(c);
    SlotRunCarriesOutputs(k, delta, c, s, SlotMap(c), zeros, bits);
    AllocationsAreRunnable(c, s, SlotMap(c));
    SlotTablesLength(k, delta, s, ArenaOf(s, zeros), |s.gates|);
    hide Derived, Runnable, SlotTables, EvaluatedOutputs, GarbledOutputs, RunOutputs, Active, Acyclic, Distinct, Rank, Spares;
  }

  /** Both parties in sequence: garble the derived schedule, evaluate it on the active labels of the
      inputs, decode. For every circuit with distinct outputs that fill whole bytes, every labels, offset
      and cipher, nothing fails and the decoded bits are the circuit's outputs. */
  method GarbleEvaluateDecode(k: Session, delta: Delta, ghost c: Circuit, s: Schedule, zeros: seq<Label>, bits: seq<bool>)
    returns (r: Result<seq<bv8>>)
    requires Acyclic(c) && Distinct(c.outputs) && |c.outputs| % 8 == 0 && s == Derived(c)
    requires |zeros| == |bits| == c.inputCount
    ensures r.Ok? && 8 * |r.value| == |c.outputs|
    ensures forall o :: 0 <= o < |c.outputs| ==> (BitAt(r.value[o / 8], o % 8) <==> RunOutputs(c, bits, BoolStep)[o])
  {
    hide Derived, Runnable, BitAt, SlotTables, EvaluatedOutputs, GarbledOutputs, RunOutputs, Active, Acyclic, Distinct,
         ArenaOf, AndCount, InRange;
    DerivedRunSucceeds(k, delta, c, zeros, bits);
    var garbled := GarbleFixed(k, delta, s, zeros);
    match garbled {
      case Err(e) => return Err(e);
      case Ok(pair) =>
        var active := EvaluateFixed(k, s, Actives(zeros, delta, bits), pair.0);
        match active {
          case Err(e) => return Err(e);
          case Ok(labels) =>
            forall o | 0 <= o < |c.outputs|
              ensures Legible(pair.1[o], delta, labels[o])
              ensures IsOne(pair.1[o], delta, labels[o]) <==> RunOutputs(c, bits, BoolStep)[o]
            {
              ActiveLabels(pair.1[o], delta);
            }
            hide IsOne, Legible, Actives;
            r := DecodeOutputLabels(delta, pair.1, labels);
        }
    }
  }
}
