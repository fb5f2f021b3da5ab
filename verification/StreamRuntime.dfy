/** The resumable runtime: the walk over the schedule as two machines that stop at every frame of tables. */
module StreamRuntime {
  import opened Circuits
  import opened Results
  import opened Schedules
  import opened Allocation
  import opened Garbling
  import opened GarbledCircuits
  import opened PackedBits
  import opened PassiveRuntime

  // ---- frames ----

  /** Some tables, with the number of AND gates before them and their own number. */
  datatype Frame = Frame(ordinalStart: nat, recordCount: nat, payload: seq<bv8>)

  function Payloads(frames: seq<Frame>): seq<bv8> {
    if frames == [] then [] else Payloads(frames[..|frames| - 1]) + frames[|frames| - 1].payload
  }

  function Records(frames: seq<Frame>): nat {
    if frames == [] then 0 else Records(frames[..|frames| - 1]) + frames[|frames| - 1].recordCount
  }

  lemma OneMoreFrame(frames: seq<Frame>, i: nat)
    requires i < |frames|
    ensures Payloads(frames[..i + 1]) == Payloads(frames[..i]) + frames[i].payload
    ensures Records(frames[..i + 1]) == Records(frames[..i]) + frames[i].recordCount
  {
    assert frames[..i + 1][..i] == frames[..i];
  }

  lemma {:induction false} RecordsGrow(frames: seq<Frame>, i: nat)
    requires i <= |frames|
    ensures Records(frames[..i]) <= Records(frames)
  {
    if i == |frames| {
      assert frames[..i] == frames;
    } else {
      var front := frames[..|frames| - 1];
      RecordsGrow(front, i);
      assert front[..i] == frames[..i];
    }
  }

  /** The frame follows its predecessors, comes before the end, and is as long as it says. */
  predicate Follows(frames: seq<Frame>, i: nat, total: nat)
    requires i < |frames|
  {
    frames[i].ordinalStart == Records(frames[..i]) < total && |frames[i].payload| == 32 * frames[i].recordCount
  }

  /** Frames that make up a stream of `total` tables, with none left over. */
  predicate Feeds(frames: seq<Frame>, total: nat) {
    (forall i :: 0 <= i < |frames| ==> Follows(frames, i, total)) && Records(frames) == total
  }

  /** Every frame but the last has the given size, if that is a number of tables, and no frame exceeds it. */
  predicate Cut(frames: seq<Frame>, size: nat) {
    size > 0 && size % 32 == 0 ==>
      forall i :: 0 <= i < |frames| ==> |frames[i].payload| <= size && (i < |frames| - 1 ==> |frames[i].payload| == size)
  }

  // ---- the garbler ----

  datatype GarblerAdvance = ChunkReady | BodyComplete(labels: seq<Label>) | GarblerFailed

  class GarblerMachine {
    const k: Session
    const delta: Delta
    const s: Schedule
    const arena: array<Option<Label>>
    const tablePayloadBytes: nat
    const maxPayloadBytes: nat
    var gateIndex: nat
    var tableChunk: seq<bv8>
    var tableBytes: nat
    var frameCalls: nat
    ghost const start: seq<Label>
    ghost var emitted: seq<bv8>

    /** The arena is the slot run so far, and what was emitted and the chunk are its tables. */
    ghost predicate Valid()
      reads this, arena
    {
      && InRange(s) && |start| == s.slotCount && gateIndex <= |s.gates| && tablePayloadBytes == 32 * AndCount(s)
      && Holds(arena[..], RunSlots(s, start, GarblerStep(k, delta), gateIndex), s, gateIndex)
      && emitted + tableChunk == SlotTables(k, delta, s, start, gateIndex)
      && tableBytes == |emitted| + |tableChunk| && |tableChunk| % 32 == 0
      && forall h :: 0 <= h < gateIndex ==> Readable(s, h)
    }

    constructor (k: Session, delta: Delta, s: Schedule, inputs: seq<Label>, arena: array<Option<Label>>,
                 tablePayloadBytes: nat, maxPayloadBytes: nat)
      requires InRange(s) && |inputs| == s.inputCount && tablePayloadBytes == 32 * AndCount(s)
      requires Holds(arena[..], ArenaOf(s, inputs), s, 0)
      ensures Valid() && tableChunk == [] && emitted == [] && gateIndex == 0
      ensures this.arena == arena && this.k == k && this.delta == delta && this.s == s && start == ArenaOf(s, inputs)
      ensures this.maxPayloadBytes == maxPayloadBytes && frameCalls == 0
    {
      this.k, this.delta, this.s, this.arena := k, delta, s, arena;
      this.tablePayloadBytes, this.maxPayloadBytes := tablePayloadBytes, maxPayloadBytes;
      gateIndex, tableChunk, tableBytes, frameCalls := 0, [], 0, 0;
      start, emitted := ArenaOf(s, inputs), [];
    }

    /** Whether chunks are cut, and where. */
    predicate Bounded()
      reads this
    {
      maxPayloadBytes > 0 && maxPayloadBytes % 32 == 0 ==> |tableChunk| < maxPayloadBytes
    }

    /** advance: garbles until a chunk is full or the gates are done, and then hands over the last chunk or the outputs. */
    method Advance() returns (a: GarblerAdvance)
      requires Valid() && tableChunk == []
      modifies `gateIndex, `tableChunk, `tableBytes, `frameCalls, arena
      ensures a.ChunkReady? ==>
                && Valid() && gateIndex > old(gateIndex) && frameCalls == old(frameCalls) + 1 && tableChunk != []
                && (maxPayloadBytes > 0 && maxPayloadBytes % 32 == 0 ==> |tableChunk| <= maxPayloadBytes)
                && (|tableChunk| == maxPayloadBytes || gateIndex == |s.gates|)
      ensures a.BodyComplete? ==>
                && Runnable(s) && emitted == SlotTables(k, delta, s, start, |s.gates|)
                && a.labels == RunSlotOutputs(s, start, GarblerStep(k, delta))
      ensures a.GarblerFailed? ==> !Runnable(s)
    {
      hide RunSlots, SlotTables, Holds, Rank, Select, Written, Readable;
      while gateIndex < |s.gates|
        invariant Valid() && Bounded() && gateIndex >= old(gateIndex)
        invariant tableChunk != [] ==> gateIndex > old(gateIndex)
        invariant frameCalls == old(frameCalls)
      {
        var table := GarbleNext(k, delta, s, gateIndex, arena, start);
        if table.Err? { return GarblerFailed; }
        Regroup(emitted, tableChunk, table.value);
        gateIndex := gateIndex + 1;
        tableChunk := tableChunk + table.value;
        tableBytes := tableBytes + |table.value|;
        if table.value != [] && |tableChunk| == maxPayloadBytes {
          frameCalls := frameCalls + 1;
          return ChunkReady;
        }
      }
      if tableChunk != [] {
        frameCalls := frameCalls + 1;
        return ChunkReady;
      }
      SlotTablesLength(k, delta, s, start, |s.gates|);
      if tableBytes != tablePayloadBytes { return GarblerFailed; }
      ghost var slots := RunSlots(s, start, GarblerStep(k, delta), |s.gates|);
      HoldsIsSized(arena[..], slots, s, |s.gates|);
      var outputs := TakeOutputs(arena, s, slots);
      match outputs {
        case Err(_) => return GarblerFailed;
        case Ok(labels) => return BodyComplete(labels);
      }
    }

    /** resume: the chunk has been sent. */
    method Resume()
      requires Valid()
      modifies `tableChunk, `emitted
      ensures Valid() && tableChunk == [] && emitted == old(emitted + tableChunk)
    {
      hide Holds, SlotTables, RunSlots;
      emitted := emitted + tableChunk;
      tableChunk := [];
    }
  }

  lemma Regroup<T>(a: seq<T>, b: seq<T>, c: seq<T>)
    ensures a + (b + c) == (a + b) + c
  {
  }

  /** Both ends of a stream of frames: the frames so far and what is still to come. */
  ghost predicate Emits(frames: seq<Frame>, emitted: seq<bv8>) {
    && Payloads(frames) == emitted && |emitted| == 32 * Records(frames)
    && forall i :: 0 <= i < |frames| ==>
         && frames[i].ordinalStart == Records(frames[..i]) && frames[i].recordCount > 0
         && |frames[i].payload| == 32 * frames[i].recordCount
  }

  lemma EmitOne(frames: seq<Frame>, emitted: seq<bv8>, chunk: seq<bv8>)
    requires Emits(frames, emitted) && chunk != [] && |chunk| % 32 == 0
    ensures Emits(frames + [Frame(|emitted| / 32, |chunk| / 32, chunk)], emitted + chunk)
  {
    hide Payloads, Records;
    var longer := frames + [Frame(|emitted| / 32, |chunk| / 32, chunk)];
    OneMoreFrame(longer, |frames|);
    assert longer[..|frames|] == frames && longer[..|longer|] == longer;
    forall i | 0 <= i < |frames| ensures longer[..i] == frames[..i] {}
  }

  /** Frames that emit a whole stream feed the evaluator. */
  lemma EmittedFeeds(frames: seq<Frame>, emitted: seq<bv8>)
    requires Emits(frames, emitted)
    ensures Feeds(frames, Records(frames))
  {
    hide Payloads, Records;
    forall i | 0 <= i < |frames| ensures Follows(frames, i, Records(frames)) {
      OneMoreFrame(frames, i);
      RecordsGrow(frames, i + 1);
    }
  }

  /** The number of frames that a receipt must show. */
  function FrameCount(bytes: nat, size: nat): nat
    requires size > 0
  {
    (bytes + size - 1) / size
  }

  lemma QuotientIs(q: nat, d: nat, x: nat)
    requires d > 0 && q * d <= x < q * d + d
    ensures x / d == q
  {
    var e := x / d;
    assert e * d <= x < e * d + d;
    Multiples(e, q, d);
    Multiples(q, e, d);
  }

  lemma {:induction false} Multiples(a: nat, b: nat, d: nat)
    ensures a < b ==> a * d + d <= b * d
    decreases b
  {
    if a < b {
      Multiples(a, b - 1, d);
      OneMultiple(b, d);
    }
  }

  lemma OneMultiple(b: nat, d: nat)
    requires b > 0
    ensures b * d == (b - 1) * d + d
  {
  }

  lemma {:induction false} FullFrames(frames: seq<Frame>, emitted: seq<bv8>, size: nat, n: nat)
    requires Emits(frames, emitted) && Cut(frames, size) && size > 0 && size % 32 == 0 && (n < |frames| || n == 0)
    ensures |Payloads(frames[..n])| == n * size
  {
    hide Emits, Records;
    if n > 0 {
      FullFrames(frames, emitted, size, n - 1);
      OneMoreFrame(frames, n - 1);
      assert n * size == (n - 1) * size + size;
    }
  }

  /** Frames that are cut to size are as many as a receipt must show. */
  lemma CutFramesAreCounted(frames: seq<Frame>, emitted: seq<bv8>, size: nat)
    requires Emits(frames, emitted) && Cut(frames, size) && size > 0 && size % 32 == 0
    ensures |frames| == FrameCount(|emitted|, size)
  {
    hide Payloads, Records;
    var n := |frames|;
    if n == 0 {
      assert frames == frames[..0];
      FullFrames(frames, emitted, size, 0);
      QuotientIs(0, size, size - 1);
    } else {
      FullFrames(frames, emitted, size, n - 1);
      OneMoreFrame(frames, n - 1);
      assert frames[..n] == frames;
      assert n * size == (n - 1) * size + size;
      QuotientIs(n, size, |emitted| + size - 1);
    }
  }

  /** The garbler's run, frame by frame: it fails exactly on a wrong input count, a stream size that is not the schedule's,
      or a schedule that does not run; otherwise the frames carry the tables of the slot run, cut to size, and feed an
      evaluator, and the labels are those of the slot run. */
  method GarbleStream(k: Session, delta: Delta, s: Schedule, inputs: seq<Label>, tablePayloadBytes: nat, maxPayloadBytes: nat)
    returns (r: Result<(seq<Frame>, seq<Label>)>)
    requires InRange(s)
    ensures r.Ok? <==> |inputs| == s.inputCount && tablePayloadBytes == 32 * AndCount(s) && Runnable(s)
    ensures r.Ok? ==> Payloads(r.value.0) == SlotTables(k, delta, s, ArenaOf(s, inputs), |s.gates|)
    ensures r.Ok? ==> Feeds(r.value.0, AndCount(s)) && Cut(r.value.0, maxPayloadBytes)
    ensures r.Ok? && maxPayloadBytes > 0 && maxPayloadBytes % 32 == 0 ==>
              |r.value.0| == FrameCount(tablePayloadBytes, maxPayloadBytes)
    ensures r.Ok? ==> r.value.1 == GarbledOutputs(k, delta, s, inputs)
  {
    hide ArenaOf, Holds, Rank, Select, Runnable, SlotTables, RunSlots, Payloads, Records, Feeds, FrameCount;
    if |inputs| != s.inputCount || tablePayloadBytes != 32 * AndCount(s) { return Err("input count"); }
    var arena := InstallInputs(s, inputs);
    RunsStart(s, ArenaOf(s, inputs), GarblerStep(k, delta));
    TablesStart(k, delta, s, ArenaOf(s, inputs));
    var m := new GarblerMachine(k, delta, s, inputs, arena, tablePayloadBytes, maxPayloadBytes);
    var frames: seq<Frame>, ordinal := [], 0;
    NothingEmitted();
    while true
      invariant m.Valid() && m.tableChunk == [] && m.k == k && m.delta == delta && m.s == s && m.start == ArenaOf(s, inputs)
      invariant m.maxPayloadBytes == maxPayloadBytes && fresh(m) && fresh(m.arena)
      invariant Emits(frames, m.emitted) && 32 * ordinal == |m.emitted| && Cut(frames, maxPayloadBytes)
      invariant m.gateIndex < |s.gates| ==> forall i :: 0 <= i < |frames| ==> |frames[i].payload| == maxPayloadBytes
      decreases |s.gates| - m.gateIndex
    {
      var a := m.Advance();
      match a {
        case GarblerFailed =>
          return Err("the schedule does not run");
        case BodyComplete(labels) =>
          SlotTablesLength(k, delta, s, ArenaOf(s, inputs), |s.gates|);
          EmittedFeeds(frames, m.emitted);
          if maxPayloadBytes > 0 && maxPayloadBytes % 32 == 0 { CutFramesAreCounted(frames, m.emitted, maxPayloadBytes); }
          return Ok((frames, labels));
        case ChunkReady =>
          EmitOne(frames, m.emitted, m.tableChunk);
          var records := |m.tableChunk| / 32;
          frames, ordinal := frames + [Frame(ordinal, records, m.tableChunk)], ordinal + records;
          m.Resume();
      }
    }
  }

  lemma NothingEmitted()
    ensures Emits([], [])
  {
  }

  // ---- the evaluator ----

  /** A run depends on the stream only through the tables of its AND gates. */
  lemma {:induction false} RunReadsAPrefix(k: Session, s: Schedule, start: seq<Label>, tables: seq<bv8>, more: seq<bv8>, g: nat)
    requires InRange(s) && |start| == s.slotCount && g <= |s.gates| && 32 * Rank(SlotOps(s), g) <= |tables|
    ensures RunSlots(s, start, EvaluatorStep(k, tables, SlotOps(s)), g)
         == RunSlots(s, start, EvaluatorStep(k, tables + more, SlotOps(s)), g)
  {
    hide SlotOps, EvaluatorGate;
    if g > 0 {
      var gate := s.gates[g - 1];
      RankStep(s, g - 1);
      RunReadsAPrefix(k, s, start, tables, more, g - 1);
      var slots := RunSlots(s, start, EvaluatorStep(k, tables, SlotOps(s)), g - 1);
      GateReadsAPrefix(k, tables, more, Rank(SlotOps(s), g - 1), g - 1, gate.op, slots[gate.left], slots[gate.right]);
    }
  }

  lemma GateReadsAPrefix(k: Session, tables: seq<bv8>, more: seq<bv8>, rank: nat, g: nat, op: Op, left: Label, right: Label)
    requires op == And ==> 32 * rank + 32 <= |tables|
    ensures EvaluatorGate(k, tables, rank, g, op, left, right) == EvaluatorGate(k, tables + more, rank, g, op, left, right)
  {
    hide EvaluateAnd, EvaluatorXor, EvaluatorInvert, DecodeTable;
    if op == And { assert (tables + more)[32 * rank..32 * rank + 32] == tables[32 * rank..32 * rank + 32]; }
  }

  datatype EvaluatorAdvance = NeedsFrame | AwaitingExactEof(labels: seq<Label>) | EvaluatorFailed

  class EvaluatorMachine {
    const k: Session
    const s: Schedule
    const arena: array<Option<Label>>
    var gateIndex: nat
    var recordsDecoded: nat
    var frameCalls: nat
    ghost const start: seq<Label>
    ghost var consumed: seq<bv8>

    /** The arena is the slot run so far on the tables consumed, which are those of its AND gates. */
    ghost predicate Valid()
      reads this, arena
    {
      && InRange(s) && |start| == s.slotCount && gateIndex <= |s.gates|
      && Holds(arena[..], RunSlots(s, start, EvaluatorStep(k, consumed, SlotOps(s)), gateIndex), s, gateIndex)
      && recordsDecoded == Rank(SlotOps(s), gateIndex) && |consumed| == 32 * recordsDecoded
      && forall h :: 0 <= h < gateIndex ==> Readable(s, h)
    }

    constructor (k: Session, s: Schedule, inputs: seq<Label>, arena: array<Option<Label>>)
      requires InRange(s) && |inputs| == s.inputCount && Holds(arena[..], ArenaOf(s, inputs), s, 0)
      ensures Valid() && consumed == [] && recordsDecoded == 0 && frameCalls == 0
      ensures this.arena == arena && this.k == k && this.s == s && start == ArenaOf(s, inputs)
    {
      this.k, this.s, this.arena := k, s, arena;
      gateIndex, recordsDecoded, frameCalls := 0, 0, 0;
      start, consumed := ArenaOf(s, inputs), [];
    }

    /** process_non_and_gates: evaluates up to the next AND gate, if there is one. */
    method ProcessNonAndGates() returns (r: Result<bool>)
      requires Valid()
      modifies `gateIndex, arena
      ensures r.Ok? ==> Valid() && (r.value <==> gateIndex < |s.gates|) && (r.value ==> s.gates[gateIndex].op == And)
      ensures r.Err? ==> !Runnable(s)
    {
      hide RunSlots, Holds, Rank, Written, Readable, EvaluatorStep, SlotOps;
      while gateIndex < |s.gates|
        invariant Valid()
      {
        if s.gates[gateIndex].op == And { return Ok(true); }
        RankStep(s, gateIndex);
        var ok := EvaluateNext(k, s, gateIndex, [], arena, start, consumed);
        if !ok { return Err("missing wire"); }
        gateIndex := gateIndex + 1;
      }
      return Ok(false);
    }

    /** The next table: the gates before its AND gate, and that gate. */
    method AcceptTable(encoded: seq<bv8>) returns (ok: bool)
      requires Valid() && |encoded| == 32
      modifies `gateIndex, `recordsDecoded, `consumed, arena
      ensures ok ==> Valid() && consumed == old(consumed) + encoded && recordsDecoded == old(recordsDecoded) + 1
      ensures !ok ==> !Runnable(s) || old(recordsDecoded) == AndCount(s)
    {
      hide RunSlots, Holds, Rank, Written, Readable, EvaluatorStep, SlotOps;
      var found := ProcessNonAndGates();
      if found.Err? { return false; }
      if !found.value { return false; }
      RunReadsAPrefix(k, s, start, consumed, encoded, gateIndex);
      RankStep(s, gateIndex);
      assert TableBytes(consumed + encoded, recordsDecoded, encoded);
      consumed := consumed + encoded;
      ok := EvaluateNext(k, s, gateIndex, encoded, arena, start, consumed);
      if !ok { return false; }
      gateIndex := gateIndex + 1;
      recordsDecoded := recordsDecoded + 1;
    }

    /** accept_frame: the frame must start where the last one ended and be as long as it says; then table by table. */
    method AcceptFrame(frame: Frame) returns (ok: bool)
      requires Valid()
      modifies `gateIndex, `recordsDecoded, `frameCalls, `consumed, arena
      ensures ok ==>
                && Valid() && consumed == old(consumed) + frame.payload && frameCalls == old(frameCalls) + 1
                && frame.ordinalStart == old(recordsDecoded) && |frame.payload| == 32 * frame.recordCount
                && recordsDecoded == old(recordsDecoded) + frame.recordCount <= AndCount(s)
      ensures !ok ==>
                || !Runnable(s) || frame.ordinalStart != old(recordsDecoded) || |frame.payload| != 32 * frame.recordCount
                || old(recordsDecoded) + frame.recordCount > AndCount(s)
    {
      hide RunSlots, Holds, Rank, Runnable, Readable, EvaluatorStep, SlotOps;
      if frame.ordinalStart != recordsDecoded || |frame.payload| != 32 * frame.recordCount { return false; }
      ghost var before := consumed;
      assert before + frame.payload[..0] == before;
      for i := 0 to frame.recordCount
        invariant Valid() && consumed == before + frame.payload[..32 * i] && recordsDecoded == old(recordsDecoded) + i
        invariant frameCalls == old(frameCalls)
      {
        var encoded := frame.payload[32 * i..32 * i + 32];
        NextTable(before, frame.payload, 32 * i);
        ok := AcceptTable(encoded);
        if !ok { return false; }
      }
      assert frame.payload[..32 * frame.recordCount] == frame.payload;
      RankGrows(SlotOps(s), gateIndex, |s.gates|);
      frameCalls := frameCalls + 1;
      return true;
    }

    /** advance: evaluates what needs no table, and asks for a frame or hands over the outputs. */
    method Advance() returns (a: EvaluatorAdvance)
      requires Valid()
      modifies `gateIndex, arena
      ensures a.NeedsFrame? ==> Valid() && recordsDecoded < AndCount(s)
      ensures a.AwaitingExactEof? ==>
                && Runnable(s) && recordsDecoded == AndCount(s)
                && a.labels == RunSlotOutputs(s, start, EvaluatorStep(k, consumed, SlotOps(s)))
      ensures a.EvaluatorFailed? ==> !Runnable(s)
    {
      hide RunSlots, Holds, Rank, Written, Readable, EvaluatorStep, SlotOps, Select;
      var found := ProcessNonAndGates();
      if found.Err? { return EvaluatorFailed; }
      if found.value {
        RankStep(s, gateIndex);
        return NeedsFrame;
      }
      if recordsDecoded != AndCount(s) { return EvaluatorFailed; }
      ghost var slots := RunSlots(s, start, EvaluatorStep(k, consumed, SlotOps(s)), |s.gates|);
      HoldsIsSized(arena[..], slots, s, |s.gates|);
      var outputs := TakeOutputs(arena, s, slots);
      match outputs {
        case Err(_) => return EvaluatorFailed;
        case Ok(labels) => return AwaitingExactEof(labels);
      }
    }
  }

  lemma NextTable(before: seq<bv8>, payload: seq<bv8>, i: nat)
    requires i + 32 <= |payload|
    ensures (before + payload[..i]) + payload[i..i + 32] == before + payload[..i + 32]
  {
    assert payload[..i + 32] == payload[..i] + payload[i..i + 32];
    Regroup(before, payload[..i], payload[i..i + 32]);
  }

  /** The evaluator's run over frames up to the end of the stream: it fails exactly on a wrong input count, a stream size
      that is not the schedule's, a schedule that does not run, or frames that do not make up the stream; otherwise the
      labels are those of the slot run on the frames' tables. */
  method EvaluateStream(k: Session, s: Schedule, inputs: seq<Label>, tablePayloadBytes: nat, frames: seq<Frame>)
    returns (r: Result<seq<Label>>)
    requires InRange(s)
    ensures r.Ok? <==> (&& |inputs| == s.inputCount && tablePayloadBytes == 32 * AndCount(s) && Runnable(s)
                        && Feeds(frames, AndCount(s)))
    ensures r.Ok? ==> r.value == EvaluatedOutputs(k, s, inputs, Payloads(frames))
  {
    hide ArenaOf, Holds, Rank, Select, Runnable, RunSlots, Payloads, Records, EvaluatorStep, SlotOps, AndCount;
    if |inputs| != s.inputCount || tablePayloadBytes != 32 * AndCount(s) { return Err("input count"); }
    var arena := InstallInputs(s, inputs);
    RunsStart(s, ArenaOf(s, inputs), EvaluatorStep(k, [], SlotOps(s)));
    RankStart(SlotOps(s));
    var m := new EvaluatorMachine(k, s, inputs, arena);
    NoFrames(frames);
    var i := 0;
    while true
      invariant m.Valid() && m.k == k && m.s == s && m.start == ArenaOf(s, inputs) && fresh(m) && fresh(m.arena)
      invariant i <= |frames| && m.consumed == Payloads(frames[..i]) && m.recordsDecoded == Records(frames[..i])
      invariant forall j :: 0 <= j < i ==> Follows(frames, j, AndCount(s))
      decreases |frames| - i
    {
      var a := m.Advance();
      match a {
        case EvaluatorFailed =>
          return Err("the schedule does not run");
        case AwaitingExactEof(labels) =>
          if i < |frames| {
            assert !Follows(frames, i, AndCount(s));
            return Err("trailing frame");
          }
          assert frames[..i] == frames;
          return Ok(labels);
        case NeedsFrame =>
          if i == |frames| {
            assert frames[..i] == frames;
            return Err("unexpected end of tables");
          }
          OneMoreFrame(frames, i);
          RecordsGrow(frames, i + 1);
          assert Feeds(frames, AndCount(s)) ==> Follows(frames, i, AndCount(s)) && Records(frames[..i + 1]) <= AndCount(s);
          var ok := m.AcceptFrame(frames[i]);
          if !ok { return Err("rejected frame"); }
          i := i + 1;
      }
    }
  }

  lemma NoFrames(frames: seq<Frame>)
    ensures Payloads(frames[..0]) == [] && Records(frames[..0]) == 0
  {
  }

  // ---- both ----

  /** Both machines, frame by frame, and decoding: for every circuit with distinct outputs that fill whole bytes, every
      labels, offset, cipher and frame size, nothing fails and the decoded bits are the circuit's outputs. */
  method StreamedRun(k: Session, delta: Delta, ghost c: Circuit, s: Schedule, zeros: seq<Label>, bits: seq<bool>,
                     maxPayloadBytes: nat)
    returns (r: Result<seq<bv8>>)
    requires Acyclic(c) && Distinct(c.outputs) && |c.outputs| % 8 == 0 && s == Derived(c)
    requires |zeros| == |bits| == c.inputCount
    ensures r.Ok? && 8 * |r.value| == |c.outputs|
    ensures forall o :: 0 <= o < |c.outputs| ==> (BitAt(r.value[o / 8], o % 8) <==> RunOutputs(c, bits, BoolStep)[o])
  {
    hide Derived, Runnable, BitAt, SlotTables, EvaluatedOutputs, GarbledOutputs, RunOutputs, Active, Acyclic, Distinct,
         ArenaOf, AndCount, InRange, Feeds, Cut, Payloads;
    DerivedRunSucceeds(k, delta, c, zeros, bits);
    var tablePayloadBytes := 32 * AndCount(s);
    var garbled := GarbleStream(k, delta, s, zeros, tablePayloadBytes, maxPayloadBytes);
    match garbled {
      case Err(e) => return Err(e);
      case Ok(pair) =>
        var active := EvaluateStream(k, s, Actives(zeros, delta, bits), tablePayloadBytes, pair.0);
        match active {
          case Err(e) => return Err(e);
          case Ok(labels) =>
            forall o | 0 <= o < |c.outputs|
              ensures Legible(pair.1[o], delta, labels[o])
              ensures IsOne(pair.1[o], delta, labels[o]) <==> RunOutputs(c, bits, BoolStep)[o]
            {
              ActiveLabels(pair.1[o], delta);
            }
            hide IsOne, Legible, Actives;
            r := DecodeOutputLabels(delta, pair.1, labels);
        }
    }
  }
}
