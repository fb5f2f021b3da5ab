/** The binary IR: its byte layout and parse_ir. */
module IrCodec {
  import opened Bytes
  import opened Circuits
  import opened Results
  import opened Liveness

  /** The frozen expectations about one component. */
  datatype Spec = Spec(component: Byte, inputSchema: seq<Byte>, outputSchema: seq<Byte>,
                       inputCount: nat, gateCount: nat, outputCount: nat, slotCount: nat,
                       xorCount: nat, andCount: nat, invCount: nat,
                       irDigest: Digest, scheduleDigest: Digest)

  const IR_MAGIC: seq<Byte> := [0x45, 0x59, 0x41, 0x4F, 0x49, 0x52, 0x30, 0x31]

  function Opcode(op: Op): Byte {
    match op
    case Xor => 1
    case And => 2
    case Inv => 3
  }

  function OpOf(code: nat): (op: Option<Op>)
    ensures op.Some? ==> Opcode(op.value) == code
    ensures op.None? ==> forall o :: Opcode(o) != code
  {
    if code == 1 then Some(Xor) else if code == 2 then Some(And) else if code == 3 then Some(Inv) else None
  }

  // ---- layout ----

  predicate GateFits(gate: Gate) { gate.left < TWO32 && gate.right < TWO32 }

  predicate Fits(c: Circuit) {
    && c.inputCount < TWO32 && |c.gates| < TWO32 && |c.outputs| < TWO32
    && GatesFit(c.gates) && WordsFit(c.outputs)
  }

  function GateBytes(gate: Gate): (s: seq<Byte>)
    requires GateFits(gate)
    ensures |s| == 9
  {
    [Opcode(gate.op)] + Word(gate.left) + Word(gate.right)
  }

  predicate GatesFit(gates: seq<Gate>) {
    forall g :: 0 <= g < |gates| ==> GateFits(gates[g])
  }

  predicate WordsFit(words: seq<nat>) {
    forall i :: 0 <= i < |words| ==> words[i] < TWO32
  }

  function GateRecords(gates: seq<Gate>): (r: seq<seq<Byte>>)
    requires GatesFit(gates)
    ensures |r| == |gates| && Uniform(r, 9)
  {
    seq(|gates|, i requires 0 <= i < |gates| => GateBytes(gates[i]))
  }

  function WordRecords(words: seq<nat>): (r: seq<seq<Byte>>)
    requires WordsFit(words)
    ensures |r| == |words| && Uniform(r, 4)
  {
    seq(|words|, i requires 0 <= i < |words| => Word(words[i]))
  }

  predicate SpecFits(spec: Spec) {
    spec.inputCount < TWO32 && spec.gateCount < TWO32 && spec.outputCount < TWO32
  }

  /** Magic, component, bit order, both schema digests and the three counts: 86 bytes. */
  function HeaderFields(sha: Hash, spec: Spec): seq<seq<Byte>>
    requires SpecFits(spec)
  {
    [IR_MAGIC, [spec.component], [1], sha(spec.inputSchema), sha(spec.outputSchema),
     Word(spec.inputCount), Word(spec.gateCount), Word(spec.outputCount)]
  }

  predicate CountsMatch(spec: Spec, c: Circuit) {
    c.inputCount == spec.inputCount && |c.gates| == spec.gateCount && |c.outputs| == spec.outputCount
  }

  /** The IR bytes of a circuit that has the counts of its component. */
  function IrBytes(sha: Hash, spec: Spec, c: Circuit): (s: seq<Byte>)
    requires Fits(c) && CountsMatch(spec, c)
  {
    Flat(HeaderFields(sha, spec)) + (Flat(GateRecords(c.gates)) + Flat(WordRecords(c.outputs)))
  }

  lemma IrBytesLength(sha: Hash, spec: Spec, c: Circuit)
    requires Fits(c) && CountsMatch(spec, c)
    ensures |IrBytes(sha, spec, c)| == 86 + 9 * spec.gateCount + 4 * spec.outputCount
  {
    HeaderLength(sha, spec);
    FlatLength(GateRecords(c.gates), 9);
    FlatLength(WordRecords(c.outputs), 4);
  }

  lemma HeaderLength(sha: Hash, spec: Spec)
    requires SpecFits(spec)
    ensures |Flat(HeaderFields(sha, spec))| == 86
  {
    EightFields(HeaderFields(sha, spec));
  }

  lemma GateBytesInjective(a: Gate, b: Gate)
    requires GateFits(a) && GateFits(b) && GateBytes(a) == GateBytes(b)
    ensures a == b
  {
    SplitConcat([Opcode(a.op)] + Word(a.left), Word(a.right), [Opcode(b.op)] + Word(b.left), Word(b.right));
    SplitConcat([Opcode(a.op)], Word(a.left), [Opcode(b.op)], Word(b.left));
    WordInjective(a.left, b.left);
    WordInjective(a.right, b.right);
  }

  // ---- parsing ----

  lemma FieldAhead(fields: seq<seq<Byte>>, i: nat, rest: seq<Byte>, start: seq<Byte>)
    requires i < |fields| && Flat(fields[..i]) + rest == start
    ensures Flat(fields[..i + 1]) == Flat(fields[..i]) + fields[i]
    ensures Flat(fields) <= start ==> fields[i] <= rest
  {
    hide Flat;
    FlatOneMore(fields, i);
    FlatPrefix(fields, i + 1);
    if Flat(fields) <= start { ComesNext(Flat(fields[..i]), fields[i], Flat(fields), rest); }
  }

  lemma FlatOneMore(fields: seq<seq<Byte>>, i: nat)
    requires i < |fields|
    ensures Flat(fields[..i + 1]) == Flat(fields[..i]) + fields[i]
  {
    hide Flat;
    assert fields[..i + 1] == fields[..i] + [fields[i]];
    FlatAppend(fields[..i], fields[i]);
  }

  lemma ComesNext<T>(a: seq<T>, f: seq<T>, whole: seq<T>, rest: seq<T>)
    requires a + f <= whole <= a + rest
    ensures f <= rest
  {
    assert |f| <= |rest|;
    forall i | 0 <= i < |f| ensures f[i] == rest[i] {
      assert (a + f)[|a| + i] == whole[|a| + i] == (a + rest)[|a| + i];
    }
  }

  /** Compares the next bytes with the expected header fields, one field after the other. */
  method CheckFields(reader: Reader, fields: seq<seq<Byte>>) returns (ok: bool)
    requires reader.Valid()
    modifies reader
    ensures reader.Valid()
    ensures ok <==> Flat(fields) <= old(reader.Rest())
    ensures ok ==> Flat(fields) + reader.Rest() == old(reader.Rest())
  {
    hide Flat;
    FlatLength([], 0);
    ghost var start := reader.Rest();
    for i := 0 to |fields|
      invariant reader.Valid() && Flat(fields[..i]) + reader.Rest() == start
    {
      FieldAhead(fields, i, reader.Rest(), start);
      var present, value := reader.Take(|fields[i]|);
      if !present || value != fields[i] { return false; }
    }
    assert fields[..|fields|] == fields;
    return true;
  }

  /** What parse_ir demands of gate `g`. */
  predicate GateAccepted(gate: Gate, inputCount: nat, g: nat) {
    gate.left < inputCount + g && gate.right < inputCount + g && CanonicalGate(gate)
  }

  predicate GatesAccepted(gates: seq<Gate>, inputCount: nat) {
    forall g :: 0 <= g < |gates| ==> GateAccepted(gates[g], inputCount, g)
  }

  /** Reads one IR gate; fails on truncation and on an unknown opcode. */
  method ReadGate(reader: Reader) returns (r: Option<Gate>)
    requires reader.Valid()
    modifies reader
    ensures reader.Valid()
    ensures r.Some? ==> GateFits(r.value) && GateBytes(r.value) + reader.Rest() == old(reader.Rest())
    ensures r.None? ==> forall gate | GateFits(gate) :: !(GateBytes(gate) <= old(reader.Rest()))
  {
    Pow256Values();
    ghost var start := reader.Rest();
    var ok1, opcode := reader.Integer(1);
    var ok2, first := reader.Integer(4);
    var ok3, second := reader.Integer(4);
    if !(ok1 && ok2 && ok3) { return None; }
    assert BigEndian(opcode, 1) == [opcode];
    assert start == [opcode] + Word(first) + Word(second) + reader.Rest();
    var op := OpOf(opcode);
    if op == None {
      forall gate | GateFits(gate) ensures !(GateBytes(gate) <= start) {
        assert GateBytes(gate)[0] != start[0];
      }
      return None;
    }
    return Some(Gate(op.value, first, second));
  }

  lemma AppendGate(gates: seq<Gate>, gate: Gate, rest: seq<Byte>, tail: seq<Byte>, start: seq<Byte>)
    requires GatesFit(gates) && GateFits(gate)
    requires Flat(GateRecords(gates)) + rest == start && GateBytes(gate) + tail == rest
    ensures GatesFit(gates + [gate]) && Flat(GateRecords(gates + [gate])) + tail == start
  {
    assert GateRecords(gates + [gate]) == GateRecords(gates) + [GateBytes(gate)];
    AppendRead(GateRecords(gates), GateBytes(gate), rest, tail, start);
  }

  /** After `read` gates of an encoding of `written`, what comes next is the next written gate. */
  lemma NextGate(read: seq<Gate>, written: seq<Gate>, rest: seq<Byte>, start: seq<Byte>)
    requires GatesFit(read) && GatesFit(written) && |read| < |written|
    requires Flat(GateRecords(read)) + rest == start && Flat(GateRecords(written)) <= start
    ensures read == written[..|read|] && GateBytes(written[|read|]) <= rest
  {
    NextRecord(GateRecords(read), GateRecords(written), 9, rest, start);
    forall g | 0 <= g < |read| ensures read[g] == written[g] {
      assert GateRecords(read)[g] == GateRecords(written)[..|read|][g] == GateBytes(written[g]);
      GateBytesInjective(read[g], written[g]);
    }
  }

  /** The bytes begin with the records of `count` acceptable gates. */
  ghost predicate BeginsWithGates(bytes: seq<Byte>, gates: seq<Gate>, count: nat, inputCount: nat) {
    |gates| == count && GatesFit(gates) && GatesAccepted(gates, inputCount) && Flat(GateRecords(gates)) <= bytes
  }

  /** Reads gate `g` and applies the per-gate checks; `next` stands for any gate that might be there. */
  method ReadAcceptedGate(reader: Reader, inputCount: nat, g: nat, ghost next: Gate) returns (r: Result<Gate>)
    requires reader.Valid()
    modifies reader
    ensures reader.Valid()
    ensures r.Ok? ==> GateFits(r.value) && GateAccepted(r.value, inputCount, g)
    ensures r.Ok? ==> GateBytes(r.value) + reader.Rest() == old(reader.Rest())
    ensures GateFits(next) && GateAccepted(next, inputCount, g) && GateBytes(next) <= old(reader.Rest()) ==> r == Ok(next)
  {
    hide GateBytes;
    ghost var start := reader.Rest();
    var gate := ReadGate(reader);
    if gate == None { return Err("unknown gate opcode"); }
    if GateFits(next) && GateBytes(next) <= start { SameGate(gate.value, next, reader.Rest(), start); }
    if !(gate.value.left < inputCount + g && gate.value.right < inputCount + g) { return Err("forward gate reference"); }
    if !CanonicalGate(gate.value) { return Err("noncanonical operands"); }
    return Ok(gate.value);
  }

  /** Reads `count` gates. It succeeds exactly when the bytes begin with that many acceptable gates. */
  method ReadGates(reader: Reader, count: nat, inputCount: nat, ghost written: seq<Gate>) returns (r: Result<seq<Gate>>)
    requires reader.Valid()
    modifies reader
    ensures reader.Valid()
    ensures r.Ok? ==> |r.value| == count && GatesAccepted(r.value, inputCount) && GatesFit(r.value)
    ensures r.Ok? ==> Flat(GateRecords(r.value)) + reader.Rest() == old(reader.Rest())
    ensures BeginsWithGates(old(reader.Rest()), written, count, inputCount) ==> r == Ok(written)
  {
    hide Flat, GateRecords, GateBytes, GateAccepted, GateFits;
    ghost var start := reader.Rest();
    ghost var right := BeginsWithGates(start, written, count, inputCount);
    var gates: seq<Gate> := [];
    FlatLength(GateRecords(gates), 9);
    for g := 0 to count
      invariant reader.Valid() && |gates| == g && GatesAccepted(gates, inputCount) && GatesFit(gates)
      invariant Flat(GateRecords(gates)) + reader.Rest() == start
      invariant right ==> gates == written[..g]
    {
      ghost var rest := reader.Rest();
      if right { NextGate(gates, written, rest, start); }
      var gate := ReadAcceptedGate(reader, inputCount, g, if right then written[g] else Gate(Xor, 0, 0));
      if gate.Err? { return Err("rejected gate"); }
      AppendGate(gates, gate.value, rest, reader.Rest(), start);
      gates := gates + [gate.value];
    }
    if right { assert written[..count] == written; }
    return Ok(gates);
  }

  lemma SameGate(a: Gate, b: Gate, rest: seq<Byte>, start: seq<Byte>)
    requires GateFits(a) && GateFits(b) && GateBytes(a) + rest == start && GateBytes(b) <= start
    ensures a == b
  {
    assert GateBytes(a) == start[..9] == GateBytes(b);
    GateBytesInjective(a, b);
  }

  lemma AppendWord(words: seq<nat>, word: nat, rest: seq<Byte>, tail: seq<Byte>, start: seq<Byte>)
    requires WordsFit(words) && word < TWO32
    requires Flat(WordRecords(words)) + rest == start && Word(word) + tail == rest
    ensures Flat(WordRecords(words + [word])) + tail == start
  {
    assert WordRecords(words + [word]) == WordRecords(words) + [Word(word)];
    AppendRead(WordRecords(words), Word(word), rest, tail, start);
  }

  lemma ReadWordsAreWritten(read: seq<nat>, written: seq<nat>, rest: seq<Byte>, start: seq<Byte>)
    requires WordsFit(read) && WordsFit(written) && |read| <= |written|
    requires Flat(WordRecords(read)) + rest == start && Flat(WordRecords(written)) <= start
    ensures read == written[..|read|]
  {
    ReadRecordsArePrefix(WordRecords(read), WordRecords(written), 4, rest, start);
    forall i | 0 <= i < |read| ensures read[i] == written[i] {
      assert WordRecords(read)[i] == WordRecords(written)[..|read|][i] == Word(written[i]);
      WordInjective(read[i], written[i]);
    }
  }

  lemma WordsLength(words: seq<nat>)
    requires WordsFit(words)
    ensures |Flat(WordRecords(words))| == 4 * |words|
  {
    FlatLength(WordRecords(words), 4);
  }

  ghost predicate BeginsWithWords(bytes: seq<Byte>, words: seq<nat>, count: nat) {
    |words| == count && WordsFit(words) && Flat(WordRecords(words)) <= bytes
  }

  /** Reads the output wires; only truncation makes it fail. */
  method ReadOutputs(reader: Reader, count: nat, ghost written: seq<nat>) returns (r: Result<seq<nat>>)
    requires reader.Valid()
    modifies reader
    ensures reader.Valid()
    ensures r.Ok? ==> |r.value| == count && WordsFit(r.value)
    ensures r.Ok? ==> Flat(WordRecords(r.value)) + reader.Rest() == old(reader.Rest())
    ensures BeginsWithWords(old(reader.Rest()), written, count) ==> r == Ok(written)
  {
    hide Flat;
    Pow256Values();
    ghost var start := reader.Rest();
    ghost var right := BeginsWithWords(start, written, count);
    var outputs: seq<nat> := [];
    WordsLength(outputs);
    if right { WordsLength(written); }
    for o := 0 to count
      invariant reader.Valid() && |outputs| == o && WordsFit(outputs)
      invariant Flat(WordRecords(outputs)) + reader.Rest() == start
    {
      ghost var rest := reader.Rest();
      WordsLength(outputs);
      var ok, output := reader.Integer(4);
      if !ok { return Err("truncated"); }
      AppendWord(outputs, output, rest, reader.Rest(), start);
      outputs := outputs + [output];
    }
    if right {
      ReadWordsAreWritten(outputs, written, reader.Rest(), start);
      assert written[..count] == written;
    }
    return Ok(outputs);
  }

  function CountOp(gates: seq<Gate>, op: Op): nat {
    if gates == [] then 0
    else CountOp(gates[..|gates| - 1], op) + if gates[|gates| - 1].op == op then 1 else 0
  }

  predicate OpCountsMatch(spec: Spec, gates: seq<Gate>) {
    && CountOp(gates, Xor) == spec.xorCount
    && CountOp(gates, And) == spec.andCount
    && CountOp(gates, Inv) == spec.invCount
  }

  /** A circuit that satisfies everything the parser checks beyond the byte layout. */
  ghost predicate WellFormed(c: Circuit) {
    Acyclic(c) && Canonical(c) && Distinct(c.outputs) && AllLive(c)
  }

  /** `data` is the frozen IR of circuit `c`. */
  ghost predicate IsIrOf(sha: Hash, spec: Spec, data: seq<Byte>, c: Circuit) {
    && Fits(c) && CountsMatch(spec, c) && data == IrBytes(sha, spec, c)
    && WellFormed(c) && OpCountsMatch(spec, c.gates)
    && sha(data) == spec.irDigest
  }

  /** An encoding of `c` starts with its header, then its gates, then its outputs. */
  lemma IrBytesInOrder(sha: Hash, spec: Spec, c: Circuit, gates: seq<Byte>, outputs: seq<Byte>)
    requires Fits(c) && CountsMatch(spec, c) && SpecFits(spec)
    requires IrBytes(sha, spec, c) == Flat(HeaderFields(sha, spec)) + gates
    ensures Flat(GateRecords(c.gates)) <= gates
    ensures gates == Flat(GateRecords(c.gates)) + outputs ==> outputs == Flat(WordRecords(c.outputs))
  {
    SplitConcat(Flat(HeaderFields(sha, spec)), gates,
                Flat(HeaderFields(sha, spec)), Flat(GateRecords(c.gates)) + Flat(WordRecords(c.outputs)));
    if gates == Flat(GateRecords(c.gates)) + outputs {
      SplitConcat(Flat(GateRecords(c.gates)), outputs, Flat(GateRecords(c.gates)), Flat(WordRecords(c.outputs)));
    }
  }

  /** parse_ir: accepts exactly the frozen encodings of well-formed circuits, and returns the circuit
      they encode. `any` stands for any circuit the bytes might encode. */
  method ParseIr(sha: Hash, spec: Spec, data: seq<Byte>, ghost any: Circuit) returns (r: Result<Circuit>)
    ensures r.Ok? ==> IsIrOf(sha, spec, data, r.value)
    ensures IsIrOf(sha, spec, data, any) ==> r == Ok(any)
  {
    hide Flat, GateRecords, WordRecords, AllLive, OpCountsMatch, HeaderFields;
    ghost var right := IsIrOf(sha, spec, data, any);
    if right { IrBytesLength(sha, spec, any); }
    if |data| != 86 + 9 * spec.gateCount + 4 * spec.outputCount { return Err("wrong exact length"); }
    if !SpecFits(spec) { return Err("wrong count"); }
    var reader := new Reader(data);
    var header := CheckFields(reader, HeaderFields(sha, spec));
    if !header { return Err("wrong header"); }
    ghost var body := reader.Rest();
    if right { IrBytesInOrder(sha, spec, any, body, []); }
    var gates := ReadGates(reader, spec.gateCount, spec.inputCount, any.gates);
    if gates.Err? { return Err("rejected gate"); }
    if right { IrBytesInOrder(sha, spec, any, body, reader.Rest()); }
    var outputs := ReadOutputs(reader, spec.outputCount, any.outputs);
    if outputs.Err? { return Err("truncated"); }
    var c := Circuit(spec.inputCount, gates.value, outputs.value);
    if !OpCountsMatch(spec, c.gates) { return Err("wrong gate count"); }
    if exists o :: 0 <= o < |c.outputs| && c.outputs[o] >= c.WireCount() { return Err("output out of range"); }
    if !Distinct(c.outputs) { return Err("duplicate output"); }
    if reader.offset != |data| { return Err("trailing bytes"); }
    var live := AllGatesLive(c);
    if !live { return Err("dead gate"); }
    if sha(data) != spec.irDigest { return Err("frozen digest mismatch"); }
    return Ok(c);
  }
}
