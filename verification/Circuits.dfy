/** Boolean circuits as the artifact verifier reads them: inputs first, then one wire per gate,
    each gate naming two earlier wires. */
module Circuits {
  import opened Results

  /** Opcodes 1, 2 and 3 of the IR. */
  datatype Op = Xor | And | Inv

  datatype Gate = Gate(op: Op, left: nat, right: nat)

  datatype Circuit = Circuit(inputCount: nat, gates: seq<Gate>, outputs: seq<nat>) {
    function WireCount(): nat { inputCount + |gates| }
  }

  predicate Reads(gate: Gate, w: nat) {
    gate.left == w || gate.right == w
  }

  /** Every gate reads earlier wires only, and every output is a wire. */
  predicate Acyclic(c: Circuit) {
    && (forall g :: 0 <= g < |c.gates| ==>
          c.gates[g].left < c.inputCount + g && c.gates[g].right < c.inputCount + g)
    && (forall o :: 0 <= o < |c.outputs| ==> c.outputs[o] < c.WireCount())
  }

  predicate CanonicalGate(gate: Gate) {
    if gate.op == Inv then gate.left == gate.right else gate.left <= gate.right
  }

  predicate Canonical(c: Circuit) {
    forall g :: 0 <= g < |c.gates| ==> CanonicalGate(c.gates[g])
  }

  predicate Distinct<T(==)>(s: seq<T>) {
    forall i, j :: 0 <= i < j < |s| ==> s[i] != s[j]
  }

  // ---- last uses ----

  /** The last of the first `k` gates that reads wire `w`. */
  function LastReader(c: Circuit, w: nat, k: nat): Option<nat>
    requires k <= |c.gates|
  {
    if k == 0 then None
    else if Reads(c.gates[k - 1], w) then Some(k - 1)
    else LastReader(c, w, k - 1)
  }

  /** The gate that uses `w` last; an output is used at the position after the last gate. */
  function LastUse(c: Circuit, w: nat): Option<nat> {
    if w in c.outputs then Some(|c.gates|) else LastReader(c, w, |c.gates|)
  }

  lemma {:induction false} LastReaderIsLast(c: Circuit, w: nat, k: nat)
    requires k <= |c.gates|
    ensures LastReader(c, w, k).Some? ==>
              LastReader(c, w, k).value < k && Reads(c.gates[LastReader(c, w, k).value], w)
    ensures forall g :: 0 <= g < k && Reads(c.gates[g], w) ==>
              LastReader(c, w, k).Some? && g <= LastReader(c, w, k).value
  {
    if k > 0 { LastReaderIsLast(c, w, k - 1); }
  }

  /** `LastUse` is the greatest position that reads the wire, outputs counting as position |gates|. */
  lemma LastUseIsLast(c: Circuit, w: nat)
    ensures LastUse(c, w) == None <==>
            w !in c.outputs && forall g :: 0 <= g < |c.gates| ==> !Reads(c.gates[g], w)
    ensures LastUse(c, w).Some? ==> LastUse(c, w).value <= |c.gates|
    ensures LastUse(c, w) == Some(|c.gates|) <==> w in c.outputs
    ensures forall g :: 0 <= g < |c.gates| && Reads(c.gates[g], w) ==>
              LastUse(c, w).Some? && g <= LastUse(c, w).value
    ensures LastUse(c, w).Some? && LastUse(c, w).value < |c.gates| ==>
              Reads(c.gates[LastUse(c, w).value], w)
  {
    LastReaderIsLast(c, w, |c.gates|);
  }

  // ---- running a circuit over any value type ----

  /** What one gate computes: gate position, opcode, left value, right value. */
  type GateStep<!T> = (nat, Op, T, T) -> T

  /** The wire values after the first `g` gates. */
  function RunWires<T>(c: Circuit, inputs: seq<T>, step: GateStep<T>, g: nat): (ws: seq<T>)
    requires Acyclic(c) && |inputs| == c.inputCount && g <= |c.gates|
    ensures |ws| == c.inputCount + g
  {
    if g == 0 then inputs
    else
      var ws := RunWires(c, inputs, step, g - 1);
      var gate := c.gates[g - 1];
      ws + [step(g - 1, gate.op, ws[gate.left], ws[gate.right])]
  }

  function Select<T>(values: seq<T>, at: seq<nat>): (r: seq<T>)
    requires forall i :: 0 <= i < |at| ==> at[i] < |values|
    ensures |r| == |at| && forall i :: 0 <= i < |at| ==> r[i] == values[at[i]]
  {
    if at == [] then [] else [values[at[0]]] + Select(values, at[1..])
  }

  /** The values of the output wires. */
  function RunOutputs<T>(c: Circuit, inputs: seq<T>, step: GateStep<T>): (r: seq<T>)
    requires Acyclic(c) && |inputs| == c.inputCount
    ensures |r| == |c.outputs|
  {
    Select(RunWires(c, inputs, step, |c.gates|), c.outputs)
  }

  /** A wire keeps the value it was given. */
  lemma {:induction false} WiresAreKept<T>(c: Circuit, inputs: seq<T>, step: GateStep<T>, g: nat, h: nat)
    requires Acyclic(c) && |inputs| == c.inputCount && g <= h <= |c.gates|
    ensures RunWires(c, inputs, step, g) <= RunWires(c, inputs, step, h)
  {
    if g < h { WiresAreKept(c, inputs, step, g, h - 1); }
  }

  // ---- bit evaluation of the IR ----

  /** One gate on bytes, as both reference evaluators compute it. */
  function ByteGate(op: Op, first: bv8, second: bv8): bv8 {
    match op
    case Xor => first ^ second
    case And => first & second
    case Inv => first ^ 1
  }

  const ByteStep: GateStep<bv8> := (g, op, first, second) => ByteGate(op, first, second)

  /** evaluate_ir: walks the gates, appending one byte per gate. */
  method EvaluateIr(c: Circuit, inputs: seq<bv8>) returns (r: Result<seq<bv8>>)
    requires Acyclic(c)
    ensures r == if |inputs| != c.inputCount then Err("wrong evaluator input width")
                 else Ok(RunOutputs(c, inputs, ByteStep))
  {
    if |inputs| != c.inputCount { return Err("wrong evaluator input width"); }
    var wires := inputs;
    for g := 0 to |c.gates|
      invariant wires == RunWires(c, inputs, ByteStep, g)
    {
      var first, second := wires[c.gates[g].left], wires[c.gates[g].right];
      wires := wires + [ByteGate(c.gates[g].op, first, second)];
    }
    return Ok(Select(wires, c.outputs));
  }
}
