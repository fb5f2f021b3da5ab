/** One component of the artifact bundle, from its two files to its output bits. */
module Bundle {
  import opened Bytes
  import opened Circuits
  import opened Results
  import opened Schedules
  import opened Allocation
  import opened IrCodec
  import opened ScheduleCodec
  import opened PackedBits

  /** The two files are the frozen IR of `c` and its canonical schedule. */
  ghost predicate IsComponent(sha: Hash, spec: Spec, ir: seq<Byte>, schedule: seq<Byte>, c: Circuit) {
    IsIrOf(sha, spec, ir, c) && IsScheduleOf(sha, spec, schedule, c, sha(ir))
  }

  /** Parses both files, evaluates both forms and packs the output. For a bundled component the comparison cannot fail,
      for any input bytes, so only outputs that do not pack into bytes are refused; `any` stands for any circuit the
      files might hold. */
  method EvaluatePair(sha: Hash, spec: Spec, ir: seq<Byte>, schedule: seq<Byte>, inputs: seq<bv8>, ghost any: Circuit)
    returns (r: Result<seq<bv8>>)
    ensures r.Ok? ==> |inputs| == spec.inputCount && exists c ::
              IsComponent(sha, spec, ir, schedule, c) && Packs(RunOutputs(c, inputs, ByteStep), r.value)
    ensures IsComponent(sha, spec, ir, schedule, any) && |inputs| == spec.inputCount ==>
              && (r.Ok? <==> Collects(RunOutputs(any, inputs, ByteStep)))
              && (r.Ok? ==> Packs(RunOutputs(any, inputs, ByteStep), r.value))
  {
    hide IsScheduleOf, Derived, RunOutputs, RunSlotOutputs, Packs, Collects;
    var circuit := ParseIr(sha, spec, ir, any);
    if circuit.Err? { return Err("rejected IR"); }
    var c := circuit.value;
    var parsed := ParseSchedule(sha, spec, schedule, c, sha(ir));
    if parsed.Err? { return Err("rejected schedule"); }
    assert c.inputCount == spec.inputCount && IsComponent(sha, spec, ir, schedule, c);
    assert IsComponent(sha, spec, ir, schedule, any) ==> c == any;
    hide IsIrOf, WellFormed, Acyclic, InRange, IsComponent;
    FormsAgree(c, inputs);
    var irOutput := EvaluateIr(c, inputs);
    var scheduleOutput := EvaluateSchedule(parsed.value, inputs);
    if irOutput.Err? || scheduleOutput.Err? { return Err("wrong input width"); }
    if irOutput != scheduleOutput { return Err("IR and schedule outputs differ"); }
    r := BitsToBytes(irOutput.value);
  }

  /** The two evaluators agree on every input of the right width. */
  lemma FormsAgree(c: Circuit, inputs: seq<bv8>)
    requires Acyclic(c)
    ensures var s := Derived(c);
            && InRange(s) && s.inputCount == c.inputCount
            && (|inputs| == c.inputCount ==>
                  RunSlotOutputs(s, inputs + seq(s.slotCount - s.inputCount, _ => 0), ByteStep)
                  == RunOutputs(c, inputs, ByteStep))
  {
    hide RunOutputs, RunSlotOutputs;
    DerivedAllocates(c);
    var s := Derived(c);
    AllocatesInRange(c, s, SlotMap(c));
    if |inputs| == c.inputCount {
      DerivedScheduleIsCorrect(c, inputs, inputs + seq(s.slotCount - s.inputCount, _ => 0), ByteStep);
    }
  }
}
