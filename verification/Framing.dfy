/** The hash-chained table stream: a manifest, frames of table bytes chained by digests, and the final transcript. */
module Framing {
  import opened Results
  import opened Bytes

  const MANIFEST_MAGIC := Ascii("EYAOSTM1")
  const FRAME_MAGIC := Ascii("EYAOTF01")
  const PROTOCOL_IDENTIFIER := Ascii("seams:ed25519-yao:stream:v1") + [0, 0, 0, 0, 0]
  const CLAIM_IDENTIFIER := Ascii("seams:ed25519-yao:passive-benchmark-one-pass:v1")
  const TRANSCRIPT_STEP_DOMAIN := Ascii("seams:ed25519-yao:phase4:transcript-step:v1")
  const MANIFEST_DIGEST_DOMAIN := Ascii("seams:ed25519-yao:stream-manifest-digest:v1")
  const CHAIN_START_DOMAIN := Ascii("seams:ed25519-yao:stream-chain-start:v1")
  const PAYLOAD_DIGEST_DOMAIN := Ascii("seams:ed25519-yao:stream-payload-digest:v1")
  const FRAME_DIGEST_DOMAIN := Ascii("seams:ed25519-yao:stream-frame-digest:v1")
  const FINAL_TRANSCRIPT_DOMAIN := Ascii("seams:ed25519-yao:stream-final-transcript:v1")

  datatype Family = Family(tag: Byte, chunkTag: Byte, chunkBytes: nat, andGates: nat, session: Digest, circuit: Digest,
                           schedule: Digest)
  {
    function TableBytes(): nat { 32 * andGates }

    function FrameCount(): nat
      requires chunkBytes > 0
    {
      (TableBytes() + chunkBytes - 1) / chunkBytes
    }

    function BodyBytes(): nat
      requires chunkBytes > 0
    {
      TableBytes() + FrameCount() * 92
    }

    /** Every number fits its field. */
    predicate Fits() {
      && 0 < chunkBytes < TWO32 && andGates < TWO32
      && FrameCount() < TWO32
    }
  }

  // ---- where the frames lie ----

  lemma Quotient(t: nat, c: nat)
    requires c > 0
    ensures var k := (t + c - 1) / c; k * c >= t && (t > 0 ==> k > 0 && (k - 1) * c < t) && (t == 0 ==> k == 0)
  {
    var k := (t + c - 1) / c;
    assert t + c - 1 == k * c + (t + c - 1) % c;
    assert k == 0 ==> k * c == 0;
    assert (k - 1) * c == k * c - c;
  }

  /** Where frame `n` starts in the table; past the last frame, the table's end. */
  function Offset(f: Family, n: nat): (r: nat)
    ensures r <= f.TableBytes()
  {
    if n * f.chunkBytes <= f.TableBytes() then n * f.chunkBytes else f.TableBytes()
  }

  lemma OffsetStep(f: Family, n: nat)
    requires f.chunkBytes > 0 && n < f.FrameCount()
    ensures Offset(f, n) == n * f.chunkBytes < f.TableBytes()
    ensures var rest := f.TableBytes() - Offset(f, n);
            Offset(f, n + 1) == Offset(f, n) + if f.chunkBytes <= rest then f.chunkBytes else rest
    ensures n + 1 < f.FrameCount() ==> Offset(f, n + 1) == Offset(f, n) + f.chunkBytes
    ensures n + 1 == f.FrameCount() ==> Offset(f, n + 1) == f.TableBytes()
  {
    var t, c, k := f.TableBytes(), f.chunkBytes, f.FrameCount();
    Quotient(t, c);
    assert (n + 1) * c == n * c + c;
    AtMost(n, k - 1, c);
    if n + 1 < k { AtMost(n + 1, k - 1, c); }
  }

  lemma AtMost(a: nat, b: nat, c: nat)
    requires a <= b
    ensures a * c <= b * c
  {
  }

  lemma LastOffset(f: Family)
    requires f.chunkBytes > 0
    ensures Offset(f, f.FrameCount()) == f.TableBytes() && Offset(f, 0) == 0
  {
    Quotient(f.TableBytes(), f.chunkBytes);
  }

  function Length(f: Family, n: nat): nat
    requires f.chunkBytes > 0 && n < f.FrameCount()
  {
    OffsetStep(f, n);
    Offset(f, n + 1) - Offset(f, n)
  }

  /** The AND gates whose tables come before frame `n`. */
  function Ordinal(f: Family, n: nat): nat
    requires f.chunkBytes > 0 && n <= f.FrameCount()
  {
    if n == 0 then 0 else Ordinal(f, n - 1) + Length(f, n - 1) / 32
  }

  /** Before the last frame, the counted gates fall short of the bytes by what each full frame cut off. */
  lemma {:induction false} OrdinalShortfall(f: Family, n: nat)
    requires f.chunkBytes > 0 && n < f.FrameCount()
    ensures 32 * Ordinal(f, n) + n * (f.chunkBytes % 32) == Offset(f, n)
  {
    hide Offset;
    if n == 0 {
      LastOffset(f);
    } else {
      OrdinalShortfall(f, n - 1);
      OffsetStep(f, n - 1);
      Step(n - 1, f.chunkBytes % 32);
    }
  }

  lemma Step(n: nat, c: nat)
    ensures (n + 1) * c == n * c + c && 0 * c == 0
  {
  }

  /** The frames carry all the gates exactly when no full frame cuts a table in two. */
  lemma OrdinalsAddUp(f: Family)
    requires f.chunkBytes > 0
    ensures Ordinal(f, f.FrameCount()) == f.andGates <==> f.chunkBytes % 32 == 0 || f.FrameCount() <= 1
    ensures Ordinal(f, f.FrameCount()) <= f.andGates
  {
    var k := f.FrameCount();
    Quotient(f.TableBytes(), f.chunkBytes);
    if k > 0 {
      OrdinalShortfall(f, k - 1);
      OffsetStep(f, k - 1);
      Shortfall(k - 1, f.chunkBytes % 32);
      hide Offset;
      assert 32 * (Length(f, k - 1) / 32) == Length(f, k - 1) - Length(f, k - 1) % 32;
    }
  }

  lemma Shortfall(n: nat, r: nat)
    ensures n * r == 0 <==> n == 0 || r == 0
    ensures n * r >= 0
  {
  }

  lemma {:induction false} OrdinalBound(f: Family, n: nat)
    requires f.chunkBytes > 0 && n <= f.FrameCount()
    ensures Ordinal(f, n) <= f.andGates
    decreases f.FrameCount() - n
  {
    if n == f.FrameCount() {
      OrdinalsAddUp(f);
    } else {
      OrdinalBound(f, n + 1);
    }
  }

  // ---- which families can be framed ----

  /** The numbers in the header of frame `n` fit their fields. */
  predicate FrameFits(f: Family, n: nat)
    requires f.chunkBytes > 0 && n < f.FrameCount()
  {
    n < TWO32 && Ordinal(f, n) < TWO32 && Length(f, n) < TWO32
  }

  /** Few enough frames, a longest frame short enough, and a last frame that starts at a small enough gate. */
  predicate Packable(f: Family) {
    && f.chunkBytes > 0 && f.FrameCount() <= TWO32
    && (f.chunkBytes < TWO32 || f.TableBytes() < TWO32)
    && (f.FrameCount() > 0 ==> Ordinal(f, f.FrameCount() - 1) < TWO32)
  }

  lemma {:induction false} OrdinalGrows(f: Family, m: nat, n: nat)
    requires f.chunkBytes > 0 && m <= n <= f.FrameCount()
    ensures Ordinal(f, m) <= Ordinal(f, n)
  {
    if m < n { OrdinalGrows(f, m, n - 1); }
  }

  /** A family is packable exactly when every frame fits. */
  lemma PackableMeansAllFit(f: Family)
    requires f.chunkBytes > 0
    ensures Packable(f) <==> forall n :: 0 <= n < f.FrameCount() ==> FrameFits(f, n)
  {
    var k := f.FrameCount();
    if Packable(f) {
      forall n | 0 <= n < k ensures FrameFits(f, n) {
        OrdinalGrows(f, n, k - 1);
        OffsetStep(f, n);
      }
    }
    if k > 0 && forall n :: 0 <= n < k ==> FrameFits(f, n) {
      assert FrameFits(f, 0) && FrameFits(f, k - 1);
      OffsetStep(f, 0);
    }
  }

  lemma FittingIsPackable(f: Family)
    requires f.Fits()
    ensures Packable(f)
  {
    if f.FrameCount() > 0 { OrdinalBound(f, f.FrameCount() - 1); }
  }

  // ---- the frames ----

  /** The first sixty bytes of a header. */
  function HeaderPrefix(sequence: nat, ordinal: nat, records: nat, length: nat, previous: Digest): (h: seq<Byte>)
    requires sequence < TWO32 && ordinal < TWO32 && records < TWO32 && length < TWO32
    ensures |h| == 60
  {
    FRAME_MAGIC + [1, 1, 0, 0] + Word(sequence) + Word(ordinal) + Word(records) + Word(length) + previous
  }

  /** One table cut into frames under one manifest digest. */
  datatype Stream = Stream(f: Family, table: seq<Byte>, manifestDigest: Digest)

  ghost predicate Streams(s: Stream) {
    Packable(s.f) && |s.table| == s.f.TableBytes()
  }

  lemma FieldsFit(f: Family, n: nat)
    requires Packable(f) && n < f.FrameCount()
    ensures FrameFits(f, n) && Length(f, n) / 32 < TWO32
    ensures Offset(f, n) <= Offset(f, n + 1) <= f.TableBytes()
  {
    PackableMeansAllFit(f);
    OffsetStep(f, n);
  }

  ghost function Payload(s: Stream, n: nat): (p: seq<Byte>)
    requires Streams(s) && n < s.f.FrameCount()
    ensures |p| == Length(s.f, n)
  {
    FieldsFit(s.f, n);
    s.table[Offset(s.f, n)..Offset(s.f, n + 1)]
  }

  /** The digest frame `n` is chained to. */
  ghost function Previous(sha: Hash, s: Stream, n: nat): Digest
    requires Streams(s) && n <= s.f.FrameCount()
    decreases n, 0
  {
    if n == 0 then sha(ChainInput(s)) else sha(FrameInput(sha, s, n - 1))
  }

  ghost function Prefix(sha: Hash, s: Stream, n: nat): (h: seq<Byte>)
    requires Streams(s) && n < s.f.FrameCount()
    ensures |h| == 60
    decreases n, 1
  {
    FieldsFit(s.f, n);
    HeaderPrefix(n, Ordinal(s.f, n), Length(s.f, n) / 32, Length(s.f, n), Previous(sha, s, n))
  }

  ghost function Header(sha: Hash, s: Stream, n: nat): (h: seq<Byte>)
    requires Streams(s) && n < s.f.FrameCount()
    ensures |h| == 92
    decreases n, 2
  {
    Prefix(sha, s, n) + sha(PAYLOAD_DIGEST_DOMAIN + s.manifestDigest + Prefix(sha, s, n) + Payload(s, n))
  }

  /** What a frame's digest is taken of. */
  ghost function FrameInput(sha: Hash, s: Stream, n: nat): seq<Byte>
    requires Streams(s) && n < s.f.FrameCount()
    decreases n, 3
  {
    FRAME_DIGEST_DOMAIN + s.manifestDigest + Header(sha, s, n) + Payload(s, n)
  }

  datatype Frame = Frame(sequence: nat, payloadOffset: nat, payloadBytes: nat, andOrdinal: nat, recordCount: nat,
                         header: seq<Byte>, payload: seq<Byte>, frameDigest: Digest)

  ghost predicate IsFrame(sha: Hash, s: Stream, n: nat, frame: Frame)
    requires Streams(s) && n < s.f.FrameCount()
  {
    && frame.sequence == n && frame.payloadOffset == Offset(s.f, n) && frame.payloadBytes == Length(s.f, n)
    && frame.andOrdinal == Ordinal(s.f, n) && frame.recordCount == Length(s.f, n) / 32
    && frame.header == Header(sha, s, n) && frame.payload == Payload(s, n)
    && frame.frameDigest == sha(FrameInput(sha, s, n))
  }

  /** encode_frames on any table: it fails exactly on chunks of no size, on a number that does not fit its field, and
      when some gate's table is cut in two by a full frame. */
  method EncodeFrames(sha: Hash, s: Stream) returns (r: Result<seq<Frame>>)
    requires |s.table| == s.f.TableBytes()
    ensures r.Ok? <==> Packable(s.f) && (s.f.chunkBytes % 32 == 0 || s.f.FrameCount() <= 1)
    ensures r.Ok? ==> |r.value| == s.f.FrameCount() && forall n :: 0 <= n < |r.value| ==> IsFrame(sha, s, n, r.value[n])
  {
    hide Offset, Ordinal, Length, IsFrame, Previous, Payload, Packable, FrameFits;
    if s.f.chunkBytes == 0 {
      assert !Packable(s.f) by { EmptyChunks(s.f); }
      return Err("division by zero");
    }
    PackableMeansAllFit(s.f);
    LastOffset(s.f);
    OrdinalZero(s.f);
    var previous: Digest := sha(CHAIN_START_DOMAIN + s.manifestDigest);
    if Packable(s.f) { ChainStart(sha, s); }
    var frames: seq<Frame> := [];
    var payloadOffset, andOrdinal := 0, 0;
    for sequence := 0 to s.f.FrameCount()
      invariant payloadOffset == Offset(s.f, sequence) && andOrdinal == Ordinal(s.f, sequence)
      invariant forall n :: 0 <= n < sequence ==> FrameFits(s.f, n)
      invariant |frames| == sequence
      invariant Streams(s) ==>
                  && previous == Previous(sha, s, sequence)
                  && forall n :: 0 <= n < sequence ==> IsFrame(sha, s, n, frames[n])
    {
      LengthStep(s.f, sequence);
      var encoded := EncodeFrame(sha, s, sequence, payloadOffset, andOrdinal, previous);
      match encoded {
        case Err(e) => return Err(e);
        case Ok(frame) =>
          frames := frames + [frame];
          previous := frame.frameDigest;
          payloadOffset := payloadOffset + frame.payloadBytes;
          andOrdinal := andOrdinal + frame.recordCount;
      }
    }
    OrdinalsAddUp(s.f);
    if payloadOffset != s.f.TableBytes() || andOrdinal != s.f.andGates { return Err("frames did not consume the table"); }
    return Ok(frames);
  }

  lemma EmptyChunks(f: Family)
    requires f.chunkBytes == 0
    ensures !Packable(f)
  {
  }

  lemma LengthStep(f: Family, n: nat)
    requires f.chunkBytes > 0 && n < f.FrameCount()
    ensures var rest := f.TableBytes() - Offset(f, n);
            Length(f, n) == if f.chunkBytes <= rest then f.chunkBytes else rest
    ensures Offset(f, n + 1) == Offset(f, n) + Length(f, n) <= f.TableBytes()
    ensures Ordinal(f, n + 1) == Ordinal(f, n) + Length(f, n) / 32
  {
    OffsetStep(f, n);
  }

  /** One iteration: the header over the chained digest, the payload digest, the frame digest. */
  method EncodeFrame(sha: Hash, s: Stream, sequence: nat, payloadOffset: nat, andOrdinal: nat, previous: Digest)
    returns (r: Result<Frame>)
    requires |s.table| == s.f.TableBytes() && s.f.chunkBytes > 0 && sequence < s.f.FrameCount()
    requires payloadOffset == Offset(s.f, sequence) && andOrdinal == Ordinal(s.f, sequence)
    ensures r.Ok? <==> FrameFits(s.f, sequence)
    ensures r.Ok? ==>
              r.value.payloadBytes == Length(s.f, sequence) && r.value.recordCount == Length(s.f, sequence) / 32
    ensures r.Ok? && Streams(s) && previous == Previous(sha, s, sequence) ==>
              IsFrame(sha, s, sequence, r.value) && r.value.frameDigest == Previous(sha, s, sequence + 1)
  {
    LengthStep(s.f, sequence);
    hide Offset, Ordinal, Length, HeaderPrefix, Packable;
    var rest := s.f.TableBytes() - payloadOffset;
    var length := if s.f.chunkBytes <= rest then s.f.chunkBytes else rest;
    var payload := s.table[payloadOffset..payloadOffset + length];
    var records := length / 32;
    if sequence >= TWO32 || andOrdinal >= TWO32 || records >= TWO32 || length >= TWO32 { return Err("argument out of range"); }
    var prefix := HeaderPrefix(sequence, andOrdinal, records, length, previous);
    var payloadDigest := sha(PAYLOAD_DIGEST_DOMAIN + s.manifestDigest + prefix + payload);
    var header := prefix + payloadDigest;
    var frameDigest := sha(FRAME_DIGEST_DOMAIN + s.manifestDigest + header + payload);
    if Streams(s) && previous == Previous(sha, s, sequence) { assert header == Header(sha, s, sequence); }
    return Ok(Frame(sequence, payloadOffset, length, andOrdinal, records, header, payload, frameDigest));
  }

  lemma ChainStart(sha: Hash, s: Stream)
    requires Streams(s)
    ensures Previous(sha, s, 0) == sha(CHAIN_START_DOMAIN + s.manifestDigest)
  {
  }

  lemma OrdinalZero(f: Family)
    requires f.chunkBytes > 0
    ensures Ordinal(f, 0) == 0
  {
  }

  lemma FrameStep(s: Stream, n: nat)
    requires Streams(s) && n < s.f.FrameCount()
    ensures Offset(s.f, n + 1) == Offset(s.f, n) + Length(s.f, n) <= |s.table|
    ensures Ordinal(s.f, n + 1) == Ordinal(s.f, n) + Length(s.f, n) / 32
    ensures Payload(s, n) == s.table[Offset(s.f, n)..Offset(s.f, n) + Length(s.f, n)]
  {
    FieldsFit(s.f, n);
    LengthStep(s.f, n);
  }

  // ---- the frames partition the table ----

  /** The payloads of the first `n` frames, and the bytes those frames take on the wire. */
  ghost function Payloads(s: Stream, n: nat): seq<Byte>
    requires Streams(s) && n <= s.f.FrameCount()
  {
    if n == 0 then [] else Payloads(s, n - 1) + Payload(s, n - 1)
  }

  ghost function WireBytes(sha: Hash, s: Stream, n: nat): nat
    requires Streams(s) && n <= s.f.FrameCount()
  {
    if n == 0 then 0 else WireBytes(sha, s, n - 1) + |Header(sha, s, n - 1)| + |Payload(s, n - 1)|
  }

  lemma {:induction false} PayloadsAreAPrefix(s: Stream, n: nat)
    requires Streams(s) && n <= s.f.FrameCount()
    ensures Payloads(s, n) == s.table[..Offset(s.f, n)]
  {
    if n == 0 {
      LastOffset(s.f);
    } else {
      PayloadsAreAPrefix(s, n - 1);
      FrameStep(s, n - 1);
      hide Offset, Length, Payload;
      assert s.table[..Offset(s.f, n)] == s.table[..Offset(s.f, n - 1)] + s.table[Offset(s.f, n - 1)..Offset(s.f, n)];
    }
  }

  lemma {:induction false} WireBytesAddUp(sha: Hash, s: Stream, n: nat)
    requires Streams(s) && n <= s.f.FrameCount()
    ensures WireBytes(sha, s, n) == Offset(s.f, n) + n * 92
  {
    hide Header;
    if n == 0 {
      LastOffset(s.f);
    } else {
      WireBytesAddUp(sha, s, n - 1);
      FrameStep(s, n - 1);
    }
  }

  /** The frames partition the table, and their bytes are exactly the announced body. */
  lemma FramesPartitionTheTable(sha: Hash, s: Stream)
    requires Streams(s)
    ensures Payloads(s, s.f.FrameCount()) == s.table
    ensures WireBytes(sha, s, s.f.FrameCount()) == s.f.BodyBytes()
  {
    LastOffset(s.f);
    PayloadsAreAPrefix(s, s.f.FrameCount());
    WireBytesAddUp(sha, s, s.f.FrameCount());
    assert s.table[..|s.table|] == s.table;
  }

  /** Every frame starts where the one before it ends, in bytes and in AND gates. */
  lemma FramesAreContiguous(sha: Hash, s: Stream, n: nat, frame: Frame, next: Frame)
    requires Streams(s) && n + 1 < s.f.FrameCount() && IsFrame(sha, s, n, frame) && IsFrame(sha, s, n + 1, next)
    ensures next.payloadOffset == frame.payloadOffset + frame.payloadBytes
    ensures next.andOrdinal == frame.andOrdinal + frame.recordCount
    ensures next.sequence == frame.sequence + 1
    ensures s.f.chunkBytes % 32 == 0 ==>
              frame.payloadBytes == 32 * frame.recordCount && frame.payloadOffset == 32 * frame.andOrdinal
  {
    hide Header, Payload, FrameInput;
    FrameStep(s, n);
    OffsetStep(s.f, n);
    OrdinalShortfall(s.f, n);
    Shortfall(n, s.f.chunkBytes % 32);
  }

  // ---- the manifest ----

  function Concat(parts: seq<seq<Byte>>): seq<Byte> {
    if parts == [] then [] else parts[0] + Concat(parts[1..])
  }

  /** Parts of agreed lengths can be told apart in their concatenation. */
  lemma {:induction false} ConcatPinsParts(a: seq<seq<Byte>>, b: seq<seq<Byte>>)
    requires |a| == |b| && (forall i :: 0 <= i < |a| ==> |a[i]| == |b[i]|) && Concat(a) == Concat(b)
    ensures a == b
  {
    if a != [] {
      SplitConcat(a[0], Concat(a[1..]), b[0], Concat(b[1..]));
      ConcatPinsParts(a[1..], b[1..]);
      assert a == [a[0]] + a[1..] && b == [b[0]] + b[1..];
    }
  }

  /** Everything that determines a stream before its frames. */
  datatype Opening = Opening(f: Family, gateDomain: nat, preStream: Digest) {
    predicate Fits() { f.Fits() && gateDomain < TWO64 }
  }

  lemma SizesFit(f: Family)
    requires f.Fits()
    ensures f.TableBytes() < TWO64 && f.BodyBytes() < TWO64
  {
  }

  /** encode_manifest: 248 bytes, the gaps and the tail zero. */
  function ManifestParts(sha: Hash, o: Opening): (parts: seq<seq<Byte>>)
    requires o.Fits()
    ensures |parts| == 15
  {
    SizesFit(o.f);
    [MANIFEST_MAGIC, [1, o.f.tag, o.f.chunkTag, 0, 0, 0, 0, 0], PROTOCOL_IDENTIFIER, sha(CLAIM_IDENTIFIER), o.f.session,
     LongWord(o.gateDomain), o.f.circuit, o.f.schedule, o.preStream, LongWord(o.f.TableBytes()), LongWord(o.f.BodyBytes()),
     Word(o.f.FrameCount()), Word(o.f.chunkBytes), Word(o.f.andGates), [0, 92, 0, 0]]
  }

  function Manifest(sha: Hash, o: Opening): seq<Byte>
    requires o.Fits()
  {
    Concat(ManifestParts(sha, o))
  }

  lemma SameWidths(sha: Hash, o: Opening, p: Opening)
    requires o.Fits() && p.Fits()
    ensures forall i :: 0 <= i < 15 ==> |ManifestParts(sha, o)[i]| == |ManifestParts(sha, p)[i]|
  {
    hide LongWord, Word;
  }

  /** A manifest determines everything it announces. */
  lemma ManifestPinsOpening(sha: Hash, o: Opening, p: Opening)
    requires o.Fits() && p.Fits() && Manifest(sha, o) == Manifest(sha, p)
    ensures o == p
  {
    hide Concat, LongWord, Word;
    SameWidths(sha, o, p);
    ConcatPinsParts(ManifestParts(sha, o), ManifestParts(sha, p));
    var a, b := ManifestParts(sha, o), ManifestParts(sha, p);
    assert a[1][1] == b[1][1] && a[1][2] == b[1][2];
    assert a[4] == b[4] && a[5] == b[5] && a[6] == b[6] && a[7] == b[7] && a[8] == b[8] && a[12] == b[12] && a[13] == b[13];
    LongWordInjective(o.gateDomain, p.gateDomain);
    WordInjective(o.f.chunkBytes, p.f.chunkBytes);
    WordInjective(o.f.andGates, p.f.andGates);
  }

  // ---- the transcript ----

  /** A whole stream: what the manifest announces, and the table. */
  datatype Case = Case(opening: Opening, table: seq<Byte>)

  ghost predicate Complete(c: Case) {
    c.opening.Fits() && |c.table| == c.opening.f.TableBytes() && c.opening.f.FrameCount() > 0
  }

  function ManifestInput(sha: Hash, o: Opening): seq<Byte>
    requires o.Fits()
  {
    MANIFEST_DIGEST_DOMAIN + Manifest(sha, o)
  }

  ghost function StreamOf(sha: Hash, c: Case): (s: Stream)
    requires Complete(c)
    ensures Streams(s)
  {
    FittingIsPackable(c.opening.f);
    Stream(c.opening.f, c.table, sha(ManifestInput(sha, c.opening)))
  }

  ghost function FinalInput(sha: Hash, c: Case): seq<Byte>
    requires Complete(c)
  {
    SizesFit(c.opening.f);
    var s := StreamOf(sha, c);
    var last := Previous(sha, s, s.f.FrameCount());
    FINAL_TRANSCRIPT_DOMAIN + (c.opening.preStream + (s.manifestDigest + (last + LongWord(s.f.BodyBytes()))))
  }

  /** The final transcript of build_case. */
  ghost function FinalTranscript(sha: Hash, c: Case): Digest
    requires Complete(c)
  {
    sha(FinalInput(sha, c))
  }

  /** What is hashed on the way to the final transcript. */
  ghost function HashInputs(sha: Hash, c: Case): set<seq<Byte>>
    requires Complete(c)
  {
    {FinalInput(sha, c), ManifestInput(sha, c.opening)} + FrameInputs(sha, StreamOf(sha, c))
  }

  ghost function FrameInputs(sha: Hash, s: Stream): set<seq<Byte>>
    requires Streams(s)
  {
    set n | 0 <= n < s.f.FrameCount() :: FrameInput(sha, s, n)
  }

  /** No two of these inputs share a digest. */
  ghost predicate NoCollision(sha: Hash, inputs: set<seq<Byte>>) {
    forall a, b :: a in inputs && b in inputs && sha(a) == sha(b) ==> a == b
  }

  /** Under one manifest, equal frame inputs are equal frames, chained to equal digests. */
  lemma FrameInputPinsFrame(sha: Hash, s: Stream, t: Stream, n: nat)
    requires Streams(s) && Streams(t) && s.f == t.f && s.manifestDigest == t.manifestDigest && n < s.f.FrameCount()
    requires FrameInput(sha, s, n) == FrameInput(sha, t, n)
    ensures Header(sha, s, n) == Header(sha, t, n) && Payload(s, n) == Payload(t, n)
    ensures Previous(sha, s, n) == Previous(sha, t, n)
  {
    var lead := FRAME_DIGEST_DOMAIN + s.manifestDigest;
    HeadersPin(sha, s, t, n, lead);
  }

  lemma HeadersPin(sha: Hash, s: Stream, t: Stream, n: nat, lead: seq<Byte>)
    requires Streams(s) && Streams(t) && s.f == t.f && n < s.f.FrameCount()
    requires lead + Header(sha, s, n) + Payload(s, n) == lead + Header(sha, t, n) + Payload(t, n)
    ensures Header(sha, s, n) == Header(sha, t, n) && Payload(s, n) == Payload(t, n)
    ensures Previous(sha, s, n) == Previous(sha, t, n)
  {
    hide Payload, Length, Previous;
    SplitConcat(lead + Header(sha, s, n), Payload(s, n), lead + Header(sha, t, n), Payload(t, n));
    SplitConcat(lead, Header(sha, s, n), lead, Header(sha, t, n));
    assert Header(sha, s, n)[..60] == Prefix(sha, s, n) && Header(sha, t, n)[..60] == Prefix(sha, t, n);
    assert Prefix(sha, s, n)[28..] == Previous(sha, s, n) && Prefix(sha, t, n)[28..] == Previous(sha, t, n);
  }

  /** Equal chained digests pin every earlier frame. */
  lemma {:induction false} ChainPinsFrames(sha: Hash, s: Stream, t: Stream, n: nat)
    requires Streams(s) && Streams(t) && s.f == t.f && s.manifestDigest == t.manifestDigest && n <= s.f.FrameCount()
    requires NoCollision(sha, FrameInputs(sha, s) + FrameInputs(sha, t))
    requires Previous(sha, s, n) == Previous(sha, t, n)
    ensures forall m :: 0 <= m < n ==> Header(sha, s, m) == Header(sha, t, m) && Payload(s, m) == Payload(t, m)
  {
    hide Header, Payload, FrameInput, Previous, FrameInputs, NoCollision;
    if n > 0 {
      EqualDigestsEqualInputs(sha, s, t, n - 1);
      FrameInputPinsFrame(sha, s, t, n - 1);
      ChainPinsFrames(sha, s, t, n - 1);
    }
  }

  lemma EqualDigestsEqualInputs(sha: Hash, s: Stream, t: Stream, n: nat)
    requires Streams(s) && Streams(t) && s.f == t.f && n < s.f.FrameCount()
    requires NoCollision(sha, FrameInputs(sha, s) + FrameInputs(sha, t))
    requires Previous(sha, s, n + 1) == Previous(sha, t, n + 1)
    ensures FrameInput(sha, s, n) == FrameInput(sha, t, n)
  {
    hide FrameInput;
    assert FrameInput(sha, s, n) in FrameInputs(sha, s) && FrameInput(sha, t, n) in FrameInputs(sha, t);
  }

  lemma {:induction false} SamePayloads(s: Stream, t: Stream, n: nat)
    requires Streams(s) && Streams(t) && s.f == t.f && n <= s.f.FrameCount()
    requires forall m :: 0 <= m < n ==> Payload(s, m) == Payload(t, m)
    ensures Payloads(s, n) == Payloads(t, n)
  {
    hide Payload;
    if n > 0 { SamePayloads(s, t, n - 1); }
  }

  lemma FinalInputPins(sha: Hash, c: Case, d: Case)
    requires Complete(c) && Complete(d) && FinalInput(sha, c) == FinalInput(sha, d)
    ensures var s, t := StreamOf(sha, c), StreamOf(sha, d);
            && s.manifestDigest == t.manifestDigest
            && Previous(sha, s, s.f.FrameCount()) == Previous(sha, t, t.f.FrameCount())
  {
    hide Previous, LongWord, Manifest;
    var s, t := StreamOf(sha, c), StreamOf(sha, d);
    SizesFit(c.opening.f);
    SizesFit(d.opening.f);
    var x, y := LongWord(s.f.BodyBytes()), LongWord(t.f.BodyBytes());
    var p, q := Previous(sha, s, s.f.FrameCount()), Previous(sha, t, t.f.FrameCount());
    SplitConcat(FINAL_TRANSCRIPT_DOMAIN, c.opening.preStream + (s.manifestDigest + (p + x)),
                FINAL_TRANSCRIPT_DOMAIN, d.opening.preStream + (t.manifestDigest + (q + y)));
    SplitConcat(c.opening.preStream, s.manifestDigest + (p + x), d.opening.preStream, t.manifestDigest + (q + y));
    SplitConcat(s.manifestDigest, p + x, t.manifestDigest, q + y);
    SplitConcat(p, x, q, y);
  }

  /** If the hash does not collide on what the two streams feed it, equal final transcripts mean equal streams:
      the same manifest, frame count, headers, payloads and table. */
  lemma FinalTranscriptPinsTheStream(sha: Hash, c: Case, d: Case)
    requires Complete(c) && Complete(d)
    requires NoCollision(sha, HashInputs(sha, c) + HashInputs(sha, d))
    requires FinalTranscript(sha, c) == FinalTranscript(sha, d)
    ensures c == d
    ensures var s, t := StreamOf(sha, c), StreamOf(sha, d);
            && s.f.FrameCount() == t.f.FrameCount() && Manifest(sha, c.opening) == Manifest(sha, d.opening)
            && forall n :: 0 <= n < s.f.FrameCount() ==> Header(sha, s, n) == Header(sha, t, n) && Payload(s, n) == Payload(t, n)
  {
    hide Header, Payload, FrameInput, Manifest, Previous, FrameInputs, FinalInput;
    FinalInputPins(sha, c, d);
    SplitConcat(MANIFEST_DIGEST_DOMAIN, Manifest(sha, c.opening), MANIFEST_DIGEST_DOMAIN, Manifest(sha, d.opening));
    ManifestPinsOpening(sha, c.opening, d.opening);
    var s, t := StreamOf(sha, c), StreamOf(sha, d);
    ChainPinsFrames(sha, s, t, s.f.FrameCount());
    SamePayloads(s, t, s.f.FrameCount());
    FramesPartitionTheTable(sha, s);
    FramesPartitionTheTable(sha, t);
  }

  // ---- the control messages after the stream ----

  /** transcript_step's input: the length makes it injective. */
  function StepInput(predecessor: Digest, message: seq<Byte>): seq<Byte>
    requires |message| < TWO64
  {
    TRANSCRIPT_STEP_DOMAIN + (predecessor + (LongWord(|message|) + message))
  }

  lemma StepPins(sha: Hash, p: Digest, m: seq<Byte>, q: Digest, n: seq<Byte>)
    requires |m| < TWO64 && |n| < TWO64 && sha(StepInput(p, m)) == sha(StepInput(q, n))
    requires NoCollision(sha, {StepInput(p, m), StepInput(q, n)})
    ensures p == q && m == n
  {
    hide LongWord;
    SplitConcat(TRANSCRIPT_STEP_DOMAIN, p + (LongWord(|m|) + m), TRANSCRIPT_STEP_DOMAIN, q + (LongWord(|n|) + n));
    SplitConcat(p, LongWord(|m|) + m, q, LongWord(|n|) + n);
    SplitConcat(LongWord(|m|), m, LongWord(|n|), n);
  }

  // ---- where the fields lie ----

  function Width(parts: seq<seq<Byte>>): nat { if parts == [] then 0 else |parts[0]| + Width(parts[1..]) }

  /** Part `i` lies behind the parts before it. */
  lemma {:induction false} PartLies(parts: seq<seq<Byte>>, i: nat)
    requires i < |parts|
    ensures var at := Width(parts[..i]);
            at + |parts[i]| <= |Concat(parts)| && Concat(parts)[at..at + |parts[i]|] == parts[i]
  {
    var rest := Concat(parts[1..]);
    if i == 0 {
      assert Concat(parts)[..|parts[0]|] == parts[0];
    } else {
      PartLies(parts[1..], i - 1);
      assert parts[1..][..i - 1] == parts[..i][1..];
      var at := Width(parts[1..][..i - 1]);
      assert Concat(parts)[|parts[0]| + at..|parts[0]| + at + |parts[i]|] == rest[at..at + |parts[i]|];
    }
  }

  lemma {:induction false} WidthOfConcat(parts: seq<seq<Byte>>)
    ensures |Concat(parts)| == Width(parts)
  {
    if parts != [] { WidthOfConcat(parts[1..]); }
  }

  lemma {:induction false} WidthStep(parts: seq<seq<Byte>>, i: nat)
    requires i < |parts|
    ensures Width(parts[..i + 1]) == Width(parts[..i]) + |parts[i]|
  {
    if i > 0 {
      WidthStep(parts[1..], i - 1);
      assert parts[..i + 1][1..] == parts[1..][..i] && parts[..i][1..] == parts[1..][..i - 1];
    }
  }

  /** Where the manifest's parts start. */
  const MANIFEST_OFFSETS: seq<nat> := [0, 8, 16, 48, 80, 112, 120, 152, 184, 216, 224, 232, 236, 240, 244, 248]

  lemma {:induction false} ManifestOffsets(sha: Hash, o: Opening, i: nat)
    requires o.Fits() && i <= 15
    ensures Width(ManifestParts(sha, o)[..i]) == MANIFEST_OFFSETS[i]
    ensures i < 15 ==> |ManifestParts(sha, o)[i]| == MANIFEST_OFFSETS[i + 1] - MANIFEST_OFFSETS[i]
  {
    hide LongWord, Word;
    var parts := ManifestParts(sha, o);
    assert |parts[0]| == 8 && |parts[2]| == 32;
    if i > 0 {
      ManifestOffsets(sha, o, i - 1);
      WidthStep(parts, i - 1);
    }
  }

  lemma ManifestPart(sha: Hash, o: Opening, i: nat, at: nat, end: nat)
    requires o.Fits() && i < 15 && at == MANIFEST_OFFSETS[i] && end == MANIFEST_OFFSETS[i + 1]
    ensures at <= end <= |Manifest(sha, o)| == 248 && Manifest(sha, o)[at..end] == ManifestParts(sha, o)[i]
  {
    hide Concat, ManifestParts;
    var parts := ManifestParts(sha, o);
    assert parts[..15] == parts;
    ManifestOffsets(sha, o, 15);
    WidthOfConcat(parts);
    ManifestOffsets(sha, o, i);
    PartLies(parts, i);
  }

  /** What stands at every byte of a manifest: the texts and digests. */
  lemma ManifestLayout(sha: Hash, o: Opening)
    requires o.Fits()
    ensures var m := Manifest(sha, o);
            && |m| == 248
            && m[0..8] == Ascii("EYAOSTM1") && m[8..16] == [1, o.f.tag, o.f.chunkTag, 0, 0, 0, 0, 0]
            && m[16..48] == Ascii("seams:ed25519-yao:stream:v1") + [0, 0, 0, 0, 0]
            && m[48..80] == sha(Ascii("seams:ed25519-yao:passive-benchmark-one-pass:v1"))
            && m[80..112] == o.f.session
            && m[120..152] == o.f.circuit && m[152..184] == o.f.schedule && m[184..216] == o.preStream
  {
    hide Manifest, LongWord, Word;
    ManifestPart(sha, o, 0, 0, 8);
    ManifestPart(sha, o, 1, 8, 16);
    ManifestPart(sha, o, 2, 16, 48);
    ManifestPart(sha, o, 3, 48, 80);
    ManifestPart(sha, o, 4, 80, 112);
    ManifestPart(sha, o, 6, 120, 152);
    ManifestPart(sha, o, 7, 152, 184);
    ManifestPart(sha, o, 8, 184, 216);
  }

  /** And the numbers. */
  lemma ManifestNumbers(sha: Hash, o: Opening)
    requires o.Fits()
    ensures var m := Manifest(sha, o);
            && |m| == 248
            && FromBigEndian(m[112..120]) == o.gateDomain
            && FromBigEndian(m[216..224]) == 32 * o.f.andGates && FromBigEndian(m[224..232]) == o.f.BodyBytes()
            && FromBigEndian(m[232..236]) == o.f.FrameCount() && FromBigEndian(m[236..240]) == o.f.chunkBytes
            && FromBigEndian(m[240..244]) == o.f.andGates && m[244..248] == [0, 92, 0, 0]
  {
    hide Manifest, LongWord, Word, FromBigEndian;
    SizesFit(o.f);
    ManifestPart(sha, o, 5, 112, 120);
    ManifestPart(sha, o, 9, 216, 224);
    ManifestPart(sha, o, 10, 224, 232);
    ManifestPart(sha, o, 11, 232, 236);
    ManifestPart(sha, o, 12, 236, 240);
    ManifestPart(sha, o, 13, 240, 244);
    ManifestPart(sha, o, 14, 244, 248);
    WordsAreRead(o.f.FrameCount(), o.gateDomain);
    WordsAreRead(o.f.chunkBytes, o.f.TableBytes());
    WordsAreRead(o.f.andGates, o.f.BodyBytes());
  }

  lemma WordsAreRead(x: nat, y: nat)
    requires x < TWO32 && y < TWO64
    ensures FromBigEndian(Word(x)) == x && FromBigEndian(LongWord(y)) == y
  {
    Pow256Values();
    Pow256Of8();
    BigEndianRoundTrip(x, 4);
    BigEndianRoundTrip(y, 8);
  }

  /** What stands at every byte of a frame's header. */
  lemma HeaderLayout(sha: Hash, s: Stream, n: nat)
    requires Streams(s) && n < s.f.FrameCount()
    ensures FrameFits(s.f, n)
    ensures var h := Header(sha, s, n);
            && h[0..8] == Ascii("EYAOTF01") && h[8..12] == [1, 1, 0, 0]
            && FromBigEndian(h[12..16]) == n && FromBigEndian(h[16..20]) == Ordinal(s.f, n)
            && FromBigEndian(h[20..24]) == |Payload(s, n)| / 32 && FromBigEndian(h[24..28]) == |Payload(s, n)|
            && h[28..60] == Previous(sha, s, n) && h[60..92] == sha(PayloadInput(sha, s, n))
  {
    FieldsFit(s.f, n);
    hide Previous, Payload, Ordinal, Length, PayloadInput, Offset;
    HeaderEndsInDigest(sha, s, n);
    PrefixLayout(n, Ordinal(s.f, n), Length(s.f, n) / 32, Length(s.f, n), Previous(sha, s, n));
    hide HeaderPrefix, FromBigEndian;
    var h, p := Header(sha, s, n), Prefix(sha, s, n);
    assert h[0..8] == p[0..8] && h[8..12] == p[8..12] && h[12..16] == p[12..16] && h[16..20] == p[16..20];
    assert h[20..24] == p[20..24] && h[24..28] == p[24..28] && h[28..60] == p[28..60];
  }

  lemma PrefixLayout(sequence: nat, ordinal: nat, records: nat, length: nat, previous: Digest)
    requires sequence < TWO32 && ordinal < TWO32 && records < TWO32 && length < TWO32
    ensures var p := HeaderPrefix(sequence, ordinal, records, length, previous);
            && p[0..8] == Ascii("EYAOTF01") && p[8..12] == [1, 1, 0, 0]
            && FromBigEndian(p[12..16]) == sequence && FromBigEndian(p[16..20]) == ordinal
            && FromBigEndian(p[20..24]) == records && FromBigEndian(p[24..28]) == length && p[28..60] == previous
  {
    hide Word, FromBigEndian;
    var p := HeaderPrefix(sequence, ordinal, records, length, previous);
    assert p[12..16] == Word(sequence) && p[16..20] == Word(ordinal) && p[20..24] == Word(records) && p[24..28] == Word(length);
    WordsAreRead(sequence, 0);
    WordsAreRead(ordinal, 0);
    WordsAreRead(records, 0);
    WordsAreRead(length, 0);
  }

  /** What a header's payload digest is taken of. */
  ghost function PayloadInput(sha: Hash, s: Stream, n: nat): seq<Byte>
    requires Streams(s) && n < s.f.FrameCount()
  {
    PAYLOAD_DIGEST_DOMAIN + s.manifestDigest + Prefix(sha, s, n) + Payload(s, n)
  }

  lemma HeaderEndsInDigest(sha: Hash, s: Stream, n: nat)
    requires Streams(s) && n < s.f.FrameCount()
    ensures Header(sha, s, n) == Prefix(sha, s, n) + sha(PayloadInput(sha, s, n))
  {
    hide Payload, HeaderPrefix, Previous;
  }

  /** Where the hash does not collide, a header alone determines its manifest digest, its payload and what it is chained to. */
  lemma HeaderPinsPayload(sha: Hash, s: Stream, t: Stream, m: nat, n: nat)
    requires Streams(s) && Streams(t) && m < s.f.FrameCount() && n < t.f.FrameCount()
    requires Header(sha, s, m) == Header(sha, t, n)
    requires NoCollision(sha, {PayloadInput(sha, s, m), PayloadInput(sha, t, n)})
    ensures m == n && s.manifestDigest == t.manifestDigest && Payload(s, m) == Payload(t, n)
    ensures Previous(sha, s, m) == Previous(sha, t, n)
  {
    HeaderLayout(sha, s, m);
    HeaderLayout(sha, t, n);
    hide Header, Payload, Previous, FromBigEndian, NoCollision, HeaderPrefix;
    assert PayloadInput(sha, s, m) == PayloadInput(sha, t, n) by {
      SameDigest(sha, PayloadInput(sha, s, m), PayloadInput(sha, t, n));
    }
    var d := PAYLOAD_DIGEST_DOMAIN;
    SplitConcat(d + s.manifestDigest + Prefix(sha, s, m), Payload(s, m), d + t.manifestDigest + Prefix(sha, t, n), Payload(t, n));
    SplitConcat(d + s.manifestDigest, Prefix(sha, s, m), d + t.manifestDigest, Prefix(sha, t, n));
    SplitConcat(d, s.manifestDigest, d, t.manifestDigest);
  }

  lemma SameDigest(sha: Hash, a: seq<Byte>, b: seq<Byte>)
    requires sha(a) == sha(b) && NoCollision(sha, {a, b})
    ensures a == b
  {
  }

  // ---- the hash inputs are of six kinds ----

  /** Characters 18, 25 and 26 tell the domains apart. */
  predicate OfKind(input: seq<Byte>, a: char, b: char, c: char) {
    |input| > 26 && input[18] == a as int && input[25] == b as int && input[26] == c as int
  }

  /** No input of one kind is an input of another, whatever the streams and messages. */
  lemma KindsSeparate(sha: Hash, c: Case, s: Stream, n: nat, p: Digest, message: seq<Byte>)
    requires Complete(c) && Streams(s) && n < s.f.FrameCount() && |message| < TWO64
    ensures OfKind(StepInput(p, message), 'p', 't', 'r') && OfKind(ManifestInput(sha, c.opening), 's', 'm', 'a')
    ensures OfKind(ChainInput(s), 's', 'c', 'h') && OfKind(PayloadInput(sha, s, n), 's', 'p', 'a')
    ensures OfKind(FrameInput(sha, s, n), 's', 'f', 'r') && OfKind(FinalInput(sha, c), 's', 'f', 'i')
  {
    hide Manifest, Header, Payload, Prefix, Previous, LongWord;
  }

  function ChainInput(s: Stream): seq<Byte> { CHAIN_START_DOMAIN + s.manifestDigest }
}
