/** The binary slot schedule: its encoding, parse_schedule, and the round trip. */
module ScheduleCodec {
  import opened Bytes
  import opened Circuits
  import opened Results
  import opened Schedules
  import opened Allocation
  import opened Allocator
  import opened IrCodec

  const SCHEDULE_MAGIC: seq<Byte> := [0x45, 0x59, 0x41, 0x4F, 0x53, 0x43, 0x30, 0x31]

  /** _minimal_width. */
  function MinimalWidth(slotCount: nat): (w: nat)
    requires slotCount > 0
  {
    var maximum := slotCount - 1;
    if maximum <= 0xFF then 1 else if maximum <= 0xFFFF then 2 else if maximum <= 0xFF_FFFF then 3 else 4
  }

  /** The width is the least number of bytes that holds every slot, for every count the header can hold. */
  lemma MinimalWidthIsMinimal(slotCount: nat, w: nat)
    requires 0 < slotCount <= TWO32 && 1 <= w
    ensures 1 <= MinimalWidth(slotCount) <= 4
    ensures slotCount <= Pow256(w) <==> MinimalWidth(slotCount) <= w
  {
    Pow256Values();
    if w > 4 { Pow256Grows(4, w); }
  }

  lemma {:induction false} Pow256Grows(v: nat, w: nat)
    requires v <= w
    ensures Pow256(v) <= Pow256(w)
  {
    if v < w { Pow256Grows(v, w - 1); }
  }

  // ---- layout ----

  predicate SlotFits(gate: SlotGate, w: nat) {
    gate.left < Pow256(w) && gate.right < Pow256(w) && gate.dest < Pow256(w)
  }

  predicate SlotGatesFit(gates: seq<SlotGate>, w: nat) {
    forall g :: 0 <= g < |gates| ==> SlotFits(gates[g], w)
  }

  predicate SlotsFit(slots: seq<nat>, w: nat) {
    forall i :: 0 <= i < |slots| ==> slots[i] < Pow256(w)
  }

  function SlotGateBytes(gate: SlotGate, w: nat): (s: seq<Byte>)
    requires SlotFits(gate, w)
    ensures |s| == 1 + 3 * w
  {
    [Opcode(gate.op)] + BigEndian(gate.left, w) + BigEndian(gate.right, w) + BigEndian(gate.dest, w)
  }

  function SlotGateRecords(gates: seq<SlotGate>, w: nat): (r: seq<seq<Byte>>)
    requires SlotGatesFit(gates, w)
    ensures |r| == |gates| && Uniform(r, 1 + 3 * w)
  {
    seq(|gates|, i requires 0 <= i < |gates| => SlotGateBytes(gates[i], w))
  }

  function SlotRecords(slots: seq<nat>, w: nat): (r: seq<seq<Byte>>)
    requires SlotsFit(slots, w)
    ensures |r| == |slots| && Uniform(r, w)
  {
    seq(|slots|, i requires 0 <= i < |slots| => BigEndian(slots[i], w))
  }

  /** The schedule can be written: it has a slot, and every number fits its field. */
  predicate Encodable(s: Schedule) {
    && 0 < s.slotCount < TWO32 && s.inputCount < TWO32 && |s.gates| < TWO32 && |s.outputs| < TWO32
    && SlotGatesFit(s.gates, MinimalWidth(s.slotCount)) && SlotsFit(s.outputs, MinimalWidth(s.slotCount))
  }

  function ScheduleHeader(component: Byte, digest: Digest, w: Byte, inputs: nat, gates: nat, outputs: nat, slots: nat)
    : seq<seq<Byte>>
    requires inputs < TWO32 && gates < TWO32 && outputs < TWO32 && slots < TWO32
  {
    [SCHEDULE_MAGIC, [component], [w], digest, Word(inputs), Word(gates), Word(outputs), Word(slots)]
  }

  function HeaderOf(component: Byte, digest: Digest, s: Schedule): seq<seq<Byte>>
    requires Encodable(s)
  {
    ScheduleHeader(component, digest, MinimalWidth(s.slotCount), s.inputCount, |s.gates|, |s.outputs|, s.slotCount)
  }

  function ScheduleBytes(component: Byte, digest: Digest, s: Schedule): seq<Byte>
    requires Encodable(s)
  {
    var w := MinimalWidth(s.slotCount);
    Flat(HeaderOf(component, digest, s)) + (Flat(SlotGateRecords(s.gates, w)) + Flat(SlotRecords(s.outputs, w)))
  }

  function ScheduleLength(gates: nat, outputs: nat, w: nat): nat {
    58 + gates * (1 + 3 * w) + outputs * w
  }

  /** The encoding has exactly the length the parser computes from its header. */
  lemma ScheduleBytesLength(component: Byte, digest: Digest, s: Schedule)
    requires Encodable(s)
    ensures |ScheduleBytes(component, digest, s)| == ScheduleLength(|s.gates|, |s.outputs|, MinimalWidth(s.slotCount))
  {
    var w := MinimalWidth(s.slotCount);
    EightFields(HeaderOf(component, digest, s));
    FlatLength(SlotGateRecords(s.gates, w), 1 + 3 * w);
    FlatLength(SlotRecords(s.outputs, w), w);
  }

  /** The counts a header can hold. */
  predicate CountsFit(s: Schedule) {
    0 < s.slotCount < TWO32 && |s.gates| < TWO32 && |s.outputs| < TWO32
  }

  /** Slots in range always fit the minimal width, so only the counts decide whether a schedule can be written. */
  lemma EncodableIfCountsFit(s: Schedule)
    requires InRange(s)
    ensures Encodable(s) <==> CountsFit(s)
  {
    if CountsFit(s) {
      MinimalWidthIsMinimal(s.slotCount, MinimalWidth(s.slotCount));
      forall g | 0 <= g < |s.gates| ensures SlotFits(s.gates[g], MinimalWidth(s.slotCount)) {
        assert SlotGateInRange(s.gates[g], s.slotCount);
      }
    }
  }

  // ---- encoding ----

  lemma SlotGateRecordsAppend(gates: seq<SlotGate>, k: nat, w: nat)
    requires k < |gates| && SlotGatesFit(gates, w)
    ensures Flat(SlotGateRecords(gates[..k + 1], w)) == Flat(SlotGateRecords(gates[..k], w)) + SlotGateBytes(gates[k], w)
  {
    assert SlotGateRecords(gates[..k + 1], w) == SlotGateRecords(gates[..k], w) + [SlotGateBytes(gates[k], w)];
    FlatAppend(SlotGateRecords(gates[..k], w), SlotGateBytes(gates[k], w));
  }

  lemma SlotRecordsAppend(slots: seq<nat>, k: nat, w: nat)
    requires k < |slots| && SlotsFit(slots, w)
    ensures Flat(SlotRecords(slots[..k + 1], w)) == Flat(SlotRecords(slots[..k], w)) + BigEndian(slots[k], w)
  {
    assert SlotRecords(slots[..k + 1], w) == SlotRecords(slots[..k], w) + [BigEndian(slots[k], w)];
    FlatAppend(SlotRecords(slots[..k], w), BigEndian(slots[k], w));
  }

  /** Writes header, gate records and output slots into one growing buffer. */
  method EncodeSchedule(component: Byte, digest: Digest, s: Schedule) returns (encoded: seq<Byte>)
    requires Encodable(s)
    ensures encoded == ScheduleBytes(component, digest, s)
  {
    hide Flat, BigEndian;
    var w := MinimalWidth(s.slotCount);
    var header := HeaderOf(component, digest, s);
    FlatLength([], 0);
    encoded := [];
    for i := 0 to |header|
      invariant encoded == Flat(header[..i])
    {
      FieldAhead(header, i, [], Flat(header[..i]));
      encoded := encoded + header[i];
    }
    assert header[..|header|] == header;
    ghost var head := encoded;
    for g := 0 to |s.gates|
      invariant encoded == head + Flat(SlotGateRecords(s.gates[..g], w))
    {
      SlotGateRecordsAppend(s.gates, g, w);
      encoded := encoded + SlotGateBytes(s.gates[g], w);
    }
    assert s.gates[..|s.gates|] == s.gates;
    ghost var body := encoded;
    for o := 0 to |s.outputs|
      invariant encoded == body + Flat(SlotRecords(s.outputs[..o], w))
    {
      SlotRecordsAppend(s.outputs, o, w);
      encoded := encoded + BigEndian(s.outputs[o], w);
    }
    assert s.outputs[..|s.outputs|] == s.outputs;
  }

  /** derive_schedule_bytes. It fails only on a changed slot count, on zero slots and on a count too large for its
      header field: no slot of a derived schedule is ever too large for its width. */
  method DeriveScheduleBytes(spec: Spec, c: Circuit, digest: Digest) returns (r: Result<seq<Byte>>)
    requires Acyclic(c)
    ensures r.Ok? <==> Derived(c).slotCount == spec.slotCount && CountsFit(Derived(c))
    ensures r.Ok? ==> Encodable(Derived(c)) && r.value == ScheduleBytes(spec.component, digest, Derived(c))
  {
    DerivedAllocates(c);
    AllocatesInRange(c, Derived(c), SlotMap(c));
    EncodableIfCountsFit(Derived(c));
    hide Derived, Encodable, Allocates, InRange;
    var derived := DeriveSchedule(c);
    match derived {
      case Err(e) => return Err(e);
      case Ok(s) =>
        if s.slotCount != spec.slotCount { return Err("derived slot count changed"); }
        if s.slotCount == 0 { return Err("zero slot count"); }
        if !CountsFit(s) { return Err("int too big to convert"); }
        var encoded := EncodeSchedule(spec.component, digest, s);
        return Ok(encoded);
    }
  }

  // ---- parsing ----

  lemma SlotGateBytesInjective(a: SlotGate, b: SlotGate, w: nat)
    requires SlotFits(a, w) && SlotFits(b, w) && SlotGateBytes(a, w) == SlotGateBytes(b, w)
    ensures a == b
  {
    var a0, b0 := [Opcode(a.op)], [Opcode(b.op)];
    var a1, b1 := a0 + BigEndian(a.left, w), b0 + BigEndian(b.left, w);
    SplitConcat(a1 + BigEndian(a.right, w), BigEndian(a.dest, w), b1 + BigEndian(b.right, w), BigEndian(b.dest, w));
    SplitConcat(a1, BigEndian(a.right, w), b1, BigEndian(b.right, w));
    SplitConcat(a0, BigEndian(a.left, w), b0, BigEndian(b.left, w));
    BigEndianInjective(a.left, b.left, w);
    BigEndianInjective(a.right, b.right, w);
    BigEndianInjective(a.dest, b.dest, w);
  }

  lemma Regroup<T>(a: seq<T>, b: seq<T>, c: seq<T>, d: seq<T>, e: seq<T>)
    ensures a + (b + (c + (d + e))) == a + b + c + d + e
  {
  }

  /** Reads one gate record; fails on truncation and on an unknown opcode. */
  method ReadSlotGate(reader: Reader, w: nat) returns (r: Option<SlotGate>)
    requires reader.Valid()
    modifies reader
    ensures reader.Valid()
    ensures r.Some? ==> SlotFits(r.value, w) && SlotGateBytes(r.value, w) + reader.Rest() == old(reader.Rest())
    ensures r.None? ==> forall gate | SlotFits(gate, w) :: !(SlotGateBytes(gate, w) <= old(reader.Rest()))
  {
    hide BigEndian;
    ghost var start := reader.Rest();
    var ok0, opcode := reader.Take(1);
    var ok1, first := reader.Integer(w);
    var ok2, second := reader.Integer(w);
    var ok3, output := reader.Integer(w);
    if !(ok0 && ok1 && ok2 && ok3) { return None; }
    Regroup(opcode, BigEndian(first, w), BigEndian(second, w), BigEndian(output, w), reader.Rest());
    assert opcode == [opcode[0]];
    var op := OpOf(opcode[0]);
    if op == None {
      forall gate | SlotFits(gate, w) ensures !(SlotGateBytes(gate, w) <= start) {
        assert SlotGateBytes(gate, w)[0] != start[0];
      }
      return None;
    }
    return Some(SlotGate(op.value, first, second, output));
  }

  /** What parse_schedule demands of gate `g`. */
  predicate SlotGateAccepted(gate: SlotGate, c: Circuit, g: nat, slotCount: nat)
    requires g < |c.gates|
  {
    && gate.op == c.gates[g].op
    && SlotGateInRange(gate, slotCount)
    && (gate.op == Inv ==> gate.left == gate.right)
  }

  /** Reads gate `g` and applies the per-gate checks; `next` stands for any gate that might be there. */
  method ReadAcceptedSlotGate(reader: Reader, w: nat, c: Circuit, g: nat, slotCount: nat, ghost next: SlotGate)
    returns (r: Result<SlotGate>)
    requires reader.Valid() && g < |c.gates|
    modifies reader
    ensures reader.Valid()
    ensures r.Ok? ==> SlotFits(r.value, w) && SlotGateBytes(r.value, w) + reader.Rest() == old(reader.Rest())
    ensures SlotFits(next, w) && SlotGateAccepted(next, c, g, slotCount) && SlotGateBytes(next, w) <= old(reader.Rest())
            ==> r == Ok(next)
  {
    hide SlotGateBytes;
    ghost var start := reader.Rest();
    var gate := ReadSlotGate(reader, w);
    if gate == None { return Err("unknown opcode"); }
    if SlotFits(next, w) && SlotGateBytes(next, w) <= start {
      assert SlotGateBytes(gate.value, w) == start[..1 + 3 * w] == SlotGateBytes(next, w);
      SlotGateBytesInjective(gate.value, next, w);
    }
    if gate.value.op != c.gates[g].op { return Err("opcode order mismatch"); }
    if !SlotGateInRange(gate.value, slotCount) { return Err("slot out of range"); }
    if gate.value.op == Inv && gate.value.left != gate.value.right { return Err("INV operands differ"); }
    return Ok(gate.value);
  }

  lemma AppendSlotGate(gates: seq<SlotGate>, gate: SlotGate, w: nat, rest: seq<Byte>, tail: seq<Byte>, start: seq<Byte>)
    requires SlotGatesFit(gates, w) && SlotFits(gate, w)
    requires Flat(SlotGateRecords(gates, w)) + rest == start && SlotGateBytes(gate, w) + tail == rest
    ensures SlotGatesFit(gates + [gate], w) && Flat(SlotGateRecords(gates + [gate], w)) + tail == start
  {
    hide SlotGateBytes, Flat;
    assert SlotGateRecords(gates + [gate], w) == SlotGateRecords(gates, w) + [SlotGateBytes(gate, w)];
    hide SlotGateRecords;
    AppendRead(SlotGateRecords(gates, w), SlotGateBytes(gate, w), rest, tail, start);
  }

  lemma AppendSlot(slots: seq<nat>, slot: nat, w: nat, rest: seq<Byte>, tail: seq<Byte>, start: seq<Byte>)
    requires SlotsFit(slots, w) && slot < Pow256(w)
    requires Flat(SlotRecords(slots, w)) + rest == start && BigEndian(slot, w) + tail == rest
    ensures SlotsFit(slots + [slot], w) && Flat(SlotRecords(slots + [slot], w)) + tail == start
  {
    hide BigEndian, Flat;
    assert SlotRecords(slots + [slot], w) == SlotRecords(slots, w) + [BigEndian(slot, w)];
    hide SlotRecords;
    AppendRead(SlotRecords(slots, w), BigEndian(slot, w), rest, tail, start);
  }

  lemma NextSlotGate(read: seq<SlotGate>, written: seq<SlotGate>, w: nat, rest: seq<Byte>, start: seq<Byte>)
    requires SlotGatesFit(read, w) && SlotGatesFit(written, w) && |read| < |written|
    requires Flat(SlotGateRecords(read, w)) + rest == start && Flat(SlotGateRecords(written, w)) <= start
    ensures SlotGateBytes(written[|read|], w) <= rest
  {
    NextRecord(SlotGateRecords(read, w), SlotGateRecords(written, w), 1 + 3 * w, rest, start);
  }

  /** The bytes begin with the records of gates that the parser accepts for `c`. */
  ghost predicate BeginsWithSlotGates(bytes: seq<Byte>, gates: seq<SlotGate>, w: nat, c: Circuit, slotCount: nat) {
    && |gates| == |c.gates| && SlotGatesFit(gates, w)
    && (forall g :: 0 <= g < |gates| ==> SlotGateAccepted(gates[g], c, g, slotCount))
    && Flat(SlotGateRecords(gates, w)) <= bytes
  }

  /** Reads one gate record per gate of the circuit. */
  method ReadSlotGates(reader: Reader, w: nat, c: Circuit, slotCount: nat, ghost written: seq<SlotGate>)
    returns (r: Result<seq<SlotGate>>)
    requires reader.Valid()
    modifies reader
    ensures reader.Valid()
    ensures BeginsWithSlotGates(old(reader.Rest()), written, w, c, slotCount) ==>
              r == Ok(written) && Flat(SlotGateRecords(written, w)) + reader.Rest() == old(reader.Rest())
  {
    hide Flat, SlotGateBytes, SlotGateRecords, SlotFits, SlotGateAccepted;
    ghost var start := reader.Rest();
    ghost var right := BeginsWithSlotGates(start, written, w, c, slotCount);
    var gates: seq<SlotGate> := [];
    FlatLength(SlotGateRecords(gates, w), 1 + 3 * w);
    for g := 0 to |c.gates|
      invariant reader.Valid() && |gates| == g && SlotGatesFit(gates, w)
      invariant Flat(SlotGateRecords(gates, w)) + reader.Rest() == start
      invariant right ==> gates == written[..g]
    {
      ghost var rest := reader.Rest();
      if right { NextSlotGate(gates, written, w, rest, start); }
      var gate := ReadAcceptedSlotGate(reader, w, c, g, slotCount, if right then written[g] else SlotGate(Xor, 0, 0, 0));
      if gate.Err? { return Err("rejected gate"); }
      AppendSlotGate(gates, gate.value, w, rest, reader.Rest(), start);
      gates := gates + [gate.value];
    }
    if right { assert written[..|c.gates|] == written; }
    return Ok(gates);
  }

  /** Reads the output slots. */
  method ReadSlots(reader: Reader, w: nat, count: nat, ghost written: seq<nat>) returns (r: Result<seq<nat>>)
    requires reader.Valid()
    modifies reader
    ensures reader.Valid()
    ensures |written| == count && SlotsFit(written, w) && old(reader.Rest()) == Flat(SlotRecords(written, w)) ==>
              r == Ok(written) && reader.Rest() == []
  {
    hide Flat, SlotRecords, BigEndian;
    ghost var start := reader.Rest();
    ghost var right := |written| == count && SlotsFit(written, w) && start == Flat(SlotRecords(written, w));
    var slots: seq<nat> := [];
    FlatLength(SlotRecords(slots, w), w);
    for o := 0 to count
      invariant reader.Valid() && |slots| == o && SlotsFit(slots, w)
      invariant Flat(SlotRecords(slots, w)) + reader.Rest() == start
      invariant right ==> slots == written[..o]
    {
      ghost var before := reader.Rest();
      if right { NextSlot(slots, written, w, before, start); }
      var ok, slot := reader.Integer(w);
      if !ok { return Err("truncated"); }
      if right { ReadsWhatWasWritten(slot, written[o], w, reader.Rest(), before[w..]); }
      AppendSlot(slots, slot, w, before, reader.Rest(), start);
      slots := slots + [slot];
    }
    if right {
      assert written[..count] == written;
      SplitConcat(Flat(SlotRecords(written, w)), reader.Rest(), Flat(SlotRecords(written, w)), []);
    }
    return Ok(slots);
  }

  lemma NextSlot(read: seq<nat>, written: seq<nat>, w: nat, rest: seq<Byte>, start: seq<Byte>)
    requires SlotsFit(read, w) && SlotsFit(written, w) && |read| < |written|
    requires Flat(SlotRecords(read, w)) + rest == start && Flat(SlotRecords(written, w)) <= start
    ensures |rest| >= w && rest == BigEndian(written[|read|], w) + rest[w..]
  {
    NextRecord(SlotRecords(read, w), SlotRecords(written, w), w, rest, start);
  }

  /** `data` is the frozen canonical schedule of circuit `c`. */
  ghost predicate IsScheduleOf(sha: Hash, spec: Spec, data: seq<Byte>, c: Circuit, digest: Digest)
    requires Acyclic(c)
  {
    && Derived(c).slotCount == spec.slotCount && Encodable(Derived(c))
    && data == ScheduleBytes(spec.component, digest, Derived(c))
    && sha(data) == spec.scheduleDigest
  }

  /** Every check of the schedule parser passes on the derived gates. */
  lemma DerivedGatesAccepted(c: Circuit)
    requires Acyclic(c) && Canonical(c)
    ensures InRange(Derived(c)) && |Derived(c).gates| == |c.gates|
    ensures forall g :: 0 <= g < |c.gates| ==> SlotGateAccepted(Derived(c).gates[g], c, g, Derived(c).slotCount)
  {
    DerivedAllocates(c);
    AllocatesInRange(c, Derived(c), SlotMap(c));
    hide Derived;
    forall g | 0 <= g < |c.gates| ensures SlotGateAccepted(Derived(c).gates[g], c, g, Derived(c).slotCount) {
      assert Derived(c).gates[g] == SlotGateOf(c.gates[g], SlotMap(c), SlotMap(c)[c.inputCount + g]);
      assert CanonicalGate(c.gates[g]) && SlotGateInRange(Derived(c).gates[g], Derived(c).slotCount);
    }
  }

  /** A schedule that passes every structural check of the parser for circuit `c`. */
  ghost predicate PassesChecks(spec: Spec, c: Circuit, s: Schedule) {
    && Encodable(s) && InRange(s)
    && s.inputCount == spec.inputCount && |s.gates| == spec.gateCount == |c.gates|
    && |s.outputs| == spec.outputCount && s.slotCount == spec.slotCount
    && (forall g :: 0 <= g < |s.gates| ==> SlotGateAccepted(s.gates[g], c, g, s.slotCount))
    && Distinct(s.outputs)
  }

  /** Gates and outputs follow the header in order. */
  lemma ScheduleBytesInOrder(component: Byte, digest: Digest, s: Schedule, body: seq<Byte>, outputs: seq<Byte>)
    requires Encodable(s) && ScheduleBytes(component, digest, s) == Flat(HeaderOf(component, digest, s)) + body
    ensures Flat(SlotGateRecords(s.gates, MinimalWidth(s.slotCount))) <= body
    ensures Flat(SlotGateRecords(s.gates, MinimalWidth(s.slotCount))) + outputs == body ==>
              outputs == Flat(SlotRecords(s.outputs, MinimalWidth(s.slotCount)))
  {
    var w := MinimalWidth(s.slotCount);
    var header, gates, slots :=
      Flat(HeaderOf(component, digest, s)), Flat(SlotGateRecords(s.gates, w)), Flat(SlotRecords(s.outputs, w));
    hide Flat;
    SplitConcat(header, body, header, gates + slots);
    if gates + outputs == body { SplitConcat(gates, outputs, gates, slots); }
  }

  /** Reads a schedule: it gives back any schedule that passes the checks from that schedule's bytes. */
  method ReadSchedule(spec: Spec, data: seq<Byte>, c: Circuit, digest: Digest, ghost s: Schedule) returns (r: Result<Schedule>)
    requires |c.gates| == spec.gateCount
    ensures PassesChecks(spec, c, s) && data == ScheduleBytes(spec.component, digest, s) ==> r == Ok(s)
  {
    hide Flat, SlotGateAccepted, SlotGateRecords, SlotRecords, ScheduleHeader, MinimalWidth, ScheduleLength, ScheduleBytes;
    ghost var right := PassesChecks(spec, c, s) && data == ScheduleBytes(spec.component, digest, s);
    if right { ScheduleBytesLength(spec.component, digest, s); }
    if !(SpecFits(spec) && 0 < spec.slotCount < TWO32) { return Err("wrong count"); }
    var w := MinimalWidth(spec.slotCount);
    MinimalWidthIsMinimal(spec.slotCount, 1);
    if |data| != ScheduleLength(spec.gateCount, spec.outputCount, w) { return Err("wrong exact length"); }
    var reader := new Reader(data);
    if right { HeaderComesFirst(spec.component, digest, s); }
    var ok := CheckFields(reader, ScheduleHeader(spec.component, digest, w, spec.inputCount, spec.gateCount,
                                                 spec.outputCount, spec.slotCount));
    if !ok { return Err("wrong header"); }
    ghost var body := reader.Rest();
    if right { ScheduleBytesInOrder(spec.component, digest, s, body, []); }
    var gates := ReadSlotGates(reader, w, c, spec.slotCount, s.gates);
    if gates.Err? { return Err("rejected gate"); }
    if right { ScheduleBytesInOrder(spec.component, digest, s, body, reader.Rest()); }
    var outputs := ReadSlots(reader, w, spec.outputCount, s.outputs);
    if outputs.Err? { return Err("truncated"); }
    if exists o :: 0 <= o < |outputs.value| && outputs.value[o] >= spec.slotCount { return Err("output slot out of range"); }
    if !Distinct(outputs.value) { return Err("duplicate output slot"); }
    if reader.offset != |data| { return Err("trailing bytes"); }
    return Ok(Schedule(spec.inputCount, spec.slotCount, gates.value, outputs.value));
  }

  lemma HeaderComesFirst(component: Byte, digest: Digest, s: Schedule)
    requires Encodable(s)
    ensures Flat(HeaderOf(component, digest, s)) <= ScheduleBytes(component, digest, s)
  {
  }

  /** parse_schedule: for a parsed circuit it accepts exactly the derived schedule's bytes, and returns
      the derived schedule. */
  method ParseSchedule(sha: Hash, spec: Spec, data: seq<Byte>, c: Circuit, digest: Digest) returns (r: Result<Schedule>)
    requires Acyclic(c) && Canonical(c) && Distinct(c.outputs) && CountsMatch(spec, c)
    ensures r.Ok? <==> IsScheduleOf(sha, spec, data, c, digest)
    ensures r.Ok? ==> r.value == Derived(c)
  {
    DerivedGatesAccepted(c);
    OutputSlotsAreDistinct(c);
    var schedule := ReadSchedule(spec, data, c, digest, Derived(c));
    if schedule.Err? { return Err("malformed schedule"); }
    var expected := DeriveScheduleBytes(spec, c, digest);
    if expected.Err? || data != expected.value { return Err("not the canonical last-use schedule"); }
    if sha(data) != spec.scheduleDigest { return Err("frozen digest mismatch"); }
    return schedule;
  }
}
