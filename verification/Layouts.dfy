/** Where everything stands in the bytes of a circuit and of its schedule. */
module Layouts {
  import opened Bytes
  import opened Circuits
  import opened Schedules
  import opened IrCodec
  import opened ScheduleCodec

  // ---- records side by side ----

  /** Records of one length follow each other without gaps. */
  lemma {:induction false} RecordAt(records: seq<seq<Byte>>, n: nat, i: nat)
    requires Uniform(records, n) && i < |records|
    ensures 0 <= i * n && i * n + n <= |Flat(records)| && Flat(records)[i * n..i * n + n] == records[i]
  {
    var k := |records| - 1;
    FlatLength(records[..k], n);
    if i < k {
      RecordAt(records[..k], n, i);
      hide Flat, Uniform;
      SliceOfFront(Flat(records[..k]), records[k], i * n, n);
    } else {
      hide Flat, Uniform;
      SliceOfBack(Flat(records[..k]), records[k]);
    }
  }

  lemma SliceOfFront<T>(a: seq<T>, b: seq<T>, at: int, n: nat)
    requires 0 <= at && at + n <= |a|
    ensures (a + b)[at..at + n] == a[at..at + n]
  {
  }

  lemma SliceOfBack<T>(a: seq<T>, b: seq<T>)
    ensures (a + b)[|a|..|a| + |b|] == b
  {
  }

  lemma EightConcat(f: seq<seq<Byte>>)
    requires |f| == 8
    ensures Flat(f) == f[0] + f[1] + f[2] + f[3] + f[4] + f[5] + f[6] + f[7]
  {
    assert f == f[..7] + [f[7]] && f[..7] == f[..6] + [f[6]] && f[..6] == f[..5] + [f[5]];
    assert f[..5] == f[..4] + [f[4]] && f[..4] == f[..3] + [f[3]] && f[..3] == f[..2] + [f[2]];
    assert f[..2] == f[..1] + [f[1]] && f[..1] == [] + [f[0]];
    FlatAppend([], f[0]);
    FlatAppend(f[..1], f[1]);
    FlatAppend(f[..2], f[2]);
    FlatAppend(f[..3], f[3]);
    FlatAppend(f[..4], f[4]);
    FlatAppend(f[..5], f[5]);
    FlatAppend(f[..6], f[6]);
    FlatAppend(f[..7], f[7]);
    assert [] + f[0] == f[0];
  }

  lemma Within<T>(whole: seq<T>, at: nat, part: seq<T>, i: nat, j: nat)
    requires at + |part| <= |whole| && whole[at..at + |part|] == part && i <= j <= |part|
    ensures whole[at + i..at + j] == part[i..j]
  {
    assert forall k :: 0 <= k < |part| ==> whole[at + k] == part[k];
  }

  lemma Middle<T>(head: seq<T>, mid: seq<T>, tail: seq<T>, i: nat, j: nat)
    requires i <= j <= |mid|
    ensures (head + (mid + tail))[|head| + i..|head| + j] == mid[i..j]
  {
  }

  lemma Behind<T>(head: seq<T>, mid: seq<T>, tail: seq<T>, i: nat, j: nat)
    requires i <= j <= |tail|
    ensures (head + (mid + tail))[|head| + |mid| + i..|head| + |mid| + j] == tail[i..j]
  {
  }

  /** Where the record behind `count` others begins. */
  function After(start: nat, count: nat, size: nat): nat { start + count * size }

  /** The number of an operation. */
  function Number(op: Op): nat { if op == Xor then 1 else if op == And then 2 else 3 }

  lemma WordBytes(x: nat)
    requires x < TWO32
    ensures Word(x) == [x / 0x100_0000, x / 0x1_0000 % 256, x / 256 % 256, x % 256] && FromBigEndian(Word(x)) == x
  {
    Pow256Values();
    BigEndianRoundTrip(x, 4);
    var a, b, c := x / 256, x / 0x1_0000, x / 0x100_0000;
    assert a / 256 == b && b / 256 == c;
    assert BigEndian(c, 1) == BigEndian(c / 256, 0) + [c % 256];
    assert BigEndian(b, 2) == BigEndian(c, 1) + [b % 256];
    assert BigEndian(a, 3) == BigEndian(b, 2) + [a % 256];
    assert BigEndian(x, 4) == BigEndian(a, 3) + [x % 256];
  }

  // ---- circuits ----

  /** The first 86 bytes: magic, component, bit order, both schema digests and the counts. */
  lemma IrHeaderBytes(sha: Hash, spec: Spec, c: Circuit)
    requires Fits(c) && CountsMatch(spec, c)
    ensures var s := IrBytes(sha, spec, c);
            && |s| >= 86 && s[0..8] == Ascii("EYAOIR01") && s[8] == spec.component && s[9] == 1
            && s[10..42] == sha(spec.inputSchema) && s[42..74] == sha(spec.outputSchema)
            && FromBigEndian(s[74..78]) == c.inputCount && FromBigEndian(s[78..82]) == |c.gates|
            && FromBigEndian(s[82..86]) == |c.outputs|
  {
    var f := HeaderFields(sha, spec);
    HeaderIsSliced(f, spec.component, 1, sha(spec.inputSchema), sha(spec.outputSchema));
    WordBytes(c.inputCount);
    WordBytes(|c.gates|);
    WordBytes(|c.outputs|);
    hide Word, FromBigEndian, Flat, HeaderFields;
    var h := Flat(f);
    var s := IrBytes(sha, spec, c);
    assert s[..86] == h;
    assert forall i, j :: 0 <= i <= j <= 86 ==> s[i..j] == s[..86][i..j];
  }

  lemma HeaderIsSliced(f: seq<seq<Byte>>, component: Byte, order: Byte, a: Digest, b: Digest)
    requires |f| == 8 && f[0] == IR_MAGIC && f[1] == [component] && f[2] == [order] && f[3] == a && f[4] == b
    requires |f[5]| == 4 && |f[6]| == 4 && |f[7]| == 4
    ensures var h := Flat(f);
            && |h| == 86 && h[0..8] == Ascii("EYAOIR01") && h[8] == component && h[9] == order
            && h[10..42] == a && h[42..74] == b && h[74..78] == f[5] && h[78..82] == f[6] && h[82..86] == f[7]
  {
    EightConcat(f);
    hide Flat;
  }

  /** Gate `g` has nine bytes: its operation, then its left and its right wire. */
  lemma IrGateBytes(sha: Hash, spec: Spec, c: Circuit, g: nat)
    requires Fits(c) && CountsMatch(spec, c) && g < |c.gates|
    ensures var s, at := IrBytes(sha, spec, c), 86 + 9 * g;
            && at + 9 <= |s| && s[at] == Number(c.gates[g].op)
            && FromBigEndian(s[at + 1..at + 5]) == c.gates[g].left && FromBigEndian(s[at + 5..at + 9]) == c.gates[g].right
  {
    var s, records, gate := IrBytes(sha, spec, c), GateRecords(c.gates), c.gates[g];
    HeaderLength(sha, spec);
    RecordAt(records, 9, g);
    Middle(Flat(HeaderFields(sha, spec)), Flat(records), Flat(WordRecords(c.outputs)), 9 * g, 9 * g + 9);
    WordBytes(gate.left);
    WordBytes(gate.right);
    hide Word, FromBigEndian, Flat, HeaderFields;
    var record, at := GateBytes(gate), 86 + 9 * g;
    Within(s, at, record, 0, 1);
    Within(s, at, record, 1, 5);
    Within(s, at, record, 5, 9);
    assert s[at] == s[at + 0..at + 1][0];
    assert record[1..5] == Word(gate.left) && record[5..9] == Word(gate.right);
  }

  /** Behind the gates, output `i` has four bytes. */
  lemma IrOutputBytes(sha: Hash, spec: Spec, c: Circuit, i: nat)
    requires Fits(c) && CountsMatch(spec, c) && i < |c.outputs|
    ensures var s, at := IrBytes(sha, spec, c), 86 + 9 * |c.gates| + 4 * i;
            at + 4 <= |s| && FromBigEndian(s[at..at + 4]) == c.outputs[i]
  {
    var records := WordRecords(c.outputs);
    HeaderLength(sha, spec);
    FlatLength(GateRecords(c.gates), 9);
    RecordAt(records, 4, i);
    WordBytes(c.outputs[i]);
    hide Word, FromBigEndian, Flat, HeaderFields;
    Behind(Flat(HeaderFields(sha, spec)), Flat(GateRecords(c.gates)), Flat(records), 4 * i, 4 * i + 4);
  }

  // ---- schedules ----

  /** The first 58 bytes: magic, component, slot width, the digest of the circuit and the counts. */
  lemma ScheduleHeaderBytes(component: Byte, digest: Digest, s: Schedule)
    requires Encodable(s)
    ensures var b := ScheduleBytes(component, digest, s);
            && |b| >= 58 && b[0..8] == Ascii("EYAOSC01") && b[8] == component && b[9] == MinimalWidth(s.slotCount)
            && b[10..42] == digest && FromBigEndian(b[42..46]) == s.inputCount
            && FromBigEndian(b[46..50]) == |s.gates| && FromBigEndian(b[50..54]) == |s.outputs|
            && FromBigEndian(b[54..58]) == s.slotCount
  {
    var f := HeaderOf(component, digest, s);
    ScheduleHeaderIsSliced(f, component, MinimalWidth(s.slotCount), digest);
    WordBytes(s.inputCount);
    WordBytes(|s.gates|);
    WordBytes(|s.outputs|);
    WordBytes(s.slotCount);
    hide Word, FromBigEndian, Flat, HeaderOf;
    var b := ScheduleBytes(component, digest, s);
    assert b[..58] == Flat(f);
    assert forall i, j :: 0 <= i <= j <= 58 ==> b[i..j] == b[..58][i..j];
  }

  lemma ScheduleHeaderIsSliced(f: seq<seq<Byte>>, component: Byte, w: Byte, digest: Digest)
    requires |f| == 8 && f[0] == SCHEDULE_MAGIC && f[1] == [component] && f[2] == [w] && f[3] == digest
    requires |f[4]| == 4 && |f[5]| == 4 && |f[6]| == 4 && |f[7]| == 4
    ensures var h := Flat(f);
            && |h| == 58 && h[0..8] == Ascii("EYAOSC01") && h[8] == component && h[9] == w && h[10..42] == digest
            && h[42..46] == f[4] && h[46..50] == f[5] && h[50..54] == f[6] && h[54..58] == f[7]
  {
    EightConcat(f);
    hide Flat;
  }

  /** Gate `g` has its operation, then its left, right and destination slot. */
  lemma ScheduleGateBytes(component: Byte, digest: Digest, s: Schedule, g: nat)
    requires Encodable(s) && g < |s.gates|
    ensures var b, w := ScheduleBytes(component, digest, s), MinimalWidth(s.slotCount);
            var at := After(58, g, 1 + 3 * w);
            && at + 1 + 3 * w <= |b| && b[at] == Number(s.gates[g].op)
            && FromBigEndian(b[at + 1..at + 1 + w]) == s.gates[g].left
            && FromBigEndian(b[at + 1 + w..at + 1 + 2 * w]) == s.gates[g].right
            && FromBigEndian(b[at + 1 + 2 * w..at + 1 + 3 * w]) == s.gates[g].dest
  {
    hide ScheduleBytes, BigEndian, FromBigEndian, SlotGateBytes, MinimalWidth;
    var w, gate := MinimalWidth(s.slotCount), s.gates[g];
    ScheduleBodyAt(component, digest, s, g * (1 + 3 * w), g * (1 + 3 * w) + (1 + 3 * w));
    RecordAt(SlotGateRecords(s.gates, w), 1 + 3 * w, g);
    SlotGateIsSliced(gate, w, ScheduleBytes(component, digest, s), 58 + g * (1 + 3 * w));
    BigEndianRoundTrip(gate.left, w);
    BigEndianRoundTrip(gate.right, w);
    BigEndianRoundTrip(gate.dest, w);
  }

  /** Behind the header come the gates, and behind the gates the outputs. */
  lemma ScheduleBodyAt(component: Byte, digest: Digest, s: Schedule, i: nat, j: nat)
    requires Encodable(s) && i <= j
    ensures var b, w := ScheduleBytes(component, digest, s), MinimalWidth(s.slotCount);
            var gates, outputs := Flat(SlotGateRecords(s.gates, w)), Flat(SlotRecords(s.outputs, w));
            && |b| == 58 + |gates| + |outputs| && (j <= |gates| ==> b[58 + i..58 + j] == gates[i..j])
            && (j <= |outputs| ==> b[58 + |gates| + i..58 + |gates| + j] == outputs[i..j])
  {
    hide Flat, SlotGateRecords, SlotRecords, MinimalWidth, SlotGatesFit, SlotsFit;
    EightFields(HeaderOf(component, digest, s));
    var w := MinimalWidth(s.slotCount);
    var head, gates := Flat(HeaderOf(component, digest, s)), Flat(SlotGateRecords(s.gates, w));
    var outputs := Flat(SlotRecords(s.outputs, w));
    if j <= |gates| { Middle(head, gates, outputs, i, j); }
    if j <= |outputs| { Behind(head, gates, outputs, i, j); }
  }

  lemma SlotGateIsSliced(gate: SlotGate, w: nat, b: seq<Byte>, at: nat)
    requires SlotFits(gate, w) && at + 1 + 3 * w <= |b| && b[at..at + 1 + 3 * w] == SlotGateBytes(gate, w)
    ensures b[at] == Number(gate.op) && b[at + 1..at + 1 + w] == BigEndian(gate.left, w)
    ensures b[at + 1 + w..at + 1 + 2 * w] == BigEndian(gate.right, w)
    ensures b[at + 1 + 2 * w..at + 1 + 3 * w] == BigEndian(gate.dest, w)
  {
    hide BigEndian;
    var record := SlotGateBytes(gate, w);
    Within(b, at, record, 0, 1);
    Within(b, at, record, 1, 1 + w);
    Within(b, at, record, 1 + w, 1 + 2 * w);
    Within(b, at, record, 1 + 2 * w, 1 + 3 * w);
    assert b[at] == b[at + 0..at + 1][0];
    ThreeFields([Opcode(gate.op)], BigEndian(gate.left, w), BigEndian(gate.right, w), BigEndian(gate.dest, w), w);
  }

  lemma ThreeFields<T>(head: seq<T>, a: seq<T>, b: seq<T>, c: seq<T>, w: nat)
    requires |head| == 1 && |a| == w && |b| == w && |c| == w
    ensures var r := head + a + b + c;
            && r[0] == head[0] && r[1..1 + w] == a && r[1 + w..1 + 2 * w] == b && r[1 + 2 * w..1 + 3 * w] == c
  {
    SliceOfBack(head + a + b, c);
    SliceOfFront(head + a + b, c, 1 + w, w);
    SliceOfBack(head + a, b);
    SliceOfFront(head + a + b, c, 1, w);
    SliceOfFront(head + a, b, 1, w);
    SliceOfBack(head, a);
  }

  /** Behind the gates, output `i` has its slot. */
  lemma ScheduleOutputBytes(component: Byte, digest: Digest, s: Schedule, i: nat)
    requires Encodable(s) && i < |s.outputs|
    ensures var b, w := ScheduleBytes(component, digest, s), MinimalWidth(s.slotCount);
            var at := After(After(58, |s.gates|, 1 + 3 * w), i, w);
            at + w <= |b| && FromBigEndian(b[at..at + w]) == s.outputs[i]
  {
    hide ScheduleBytes, BigEndian, FromBigEndian, SlotGateRecords, MinimalWidth;
    var w := MinimalWidth(s.slotCount);
    FlatLength(SlotGateRecords(s.gates, w), 1 + 3 * w);
    RecordAt(SlotRecords(s.outputs, w), w, i);
    ScheduleBodyAt(component, digest, s, i * w, i * w + w);
    BigEndianRoundTrip(s.outputs[i], w);
  }
}
