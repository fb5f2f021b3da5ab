/** The half-gates garbling kernel: labels, tweaks, the fixed-key hash, and the gates of both parties. */
module Garbling {
  import opened Bytes
  import opened Blocks

  /** A wire label. */
  type Label = Block

  /** AES-128 under the fixed all-zero key. Both the two-block and the four-block cipher compute it. */
  type Cipher = Block -> Block

  /** The low bit of the last byte. */
  predicate SelectionBit(l: Label) { l[15] & 1 == 1 }

  /** The global offset; its selection bit is forced to one. */
  type Delta = d: Label | SelectionBit(d) witness seq(16, _ => 1)

  const TWO63: nat := 0x8000_0000_0000_0000

  /** A session domain is nonzero. */
  type Domain = d: nat | 0 < d < TWO64 witness 1

  type Ordinal = n: nat | n < TWO63

  datatype Half = GarblerHalf | EvaluatorHalf

  // ---- tweaks ----

  function EncodedOrdinal(ordinal: Ordinal, half: Half): nat {
    2 * ordinal + if half.EvaluatorHalf? then 1 else 0
  }

  /** Domain and encoded ordinal, eight big-endian bytes each. */
  function Tweak(domain: Domain, ordinal: Ordinal, half: Half): Block {
    Pow256Of8();
    ToBytes(domain, 8) + ToBytes(EncodedOrdinal(ordinal, half), 8)
  }

  lemma SplitBlocks(a: seq<bv8>, b: seq<bv8>, c: seq<bv8>, d: seq<bv8>)
    requires |a| == |c| && a + b == c + d
    ensures a == c && b == d
  {
    SplitConcat(a, b, c, d);
  }

  /** No two of domain, gate and half share a tweak. */
  lemma TweakIsInjective(domain: Domain, ordinal: Ordinal, half: Half, domain': Domain, ordinal': Ordinal, half': Half)
    requires Tweak(domain, ordinal, half) == Tweak(domain', ordinal', half')
    ensures domain == domain' && ordinal == ordinal' && half == half'
  {
    hide ToBytes, Value;
    Pow256Of8();
    var e, e' := EncodedOrdinal(ordinal, half), EncodedOrdinal(ordinal', half');
    SplitBlocks(ToBytes(domain, 8), ToBytes(e, 8), ToBytes(domain', 8), ToBytes(e', 8));
    ValueOfToBytes(domain, 8);
    ValueOfToBytes(domain', 8);
    ValueOfToBytes(e, 8);
    ValueOfToBytes(e', 8);
  }

  /** What a tweak says, read by position: the domain, the gate, and the half in the lowest bit. */
  lemma TweakIsReadBack(domain: Domain, ordinal: Ordinal, half: Half)
    ensures var t := Tweak(domain, ordinal, half);
            && Value(t[..8]) == domain && Value(t[8..]) / 2 == ordinal
            && (Value(t[8..]) % 2 == 1 <==> half.EvaluatorHalf?)
  {
    hide ToBytes, Value;
    Pow256Of8();
    var e := EncodedOrdinal(ordinal, half);
    assert Tweak(domain, ordinal, half)[..8] == ToBytes(domain, 8) && Tweak(domain, ordinal, half)[8..] == ToBytes(e, 8);
    ValueOfToBytes(domain, 8);
    ValueOfToBytes(e, 8);
  }

  // ---- the hash ----

  /** prepare_hash_input. */
  function HashInput(wire: Label, tweak: Block): Block { Xor(Double(wire), tweak) }

  /** finish_hash_output of the encrypted input. */
  function Hash(aes: Cipher, wire: Label, tweak: Block): Label {
    Xor(aes(HashInput(wire, tweak)), HashInput(wire, tweak))
  }

  lemma {:induction false} XorCancels(a: Block, b: Block)
    ensures Xor(Xor(a, b), b) == a
  {
    hide XorByte;
    forall i | 0 <= i < 16 ensures Xor(Xor(a, b), b)[i] == a[i] { XorByteLaws(a[i], b[i], b[i]); }
  }

  /** Under one tweak, different labels reach the cipher as different inputs. */
  lemma HashInputIsInjective(a: Label, b: Label, tweak: Block)
    requires HashInput(a, tweak) == HashInput(b, tweak)
    ensures a == b
  {
    hide Xor, Double;
    XorCancels(Double(a), tweak);
    XorCancels(Double(b), tweak);
    DoubleIsInjective(a, b);
  }

  const ZERO_BLOCK: Block := seq(16, _ => 0)

  /** The cipher input is the tweak shifted by the label's double: the zero label leaves the tweak as it is, and adding to
      a label adds its double. */
  lemma HashInputIsAffine(a: Label, b: Label, tweak: Block)
    ensures HashInput(ZERO_BLOCK, tweak) == tweak
    ensures HashInput(Xor(a, b), tweak) == Xor(HashInput(a, tweak), Double(b))
  {
    DoubleOfZero();
    hide Xor, Double;
    XorWithZero(tweak);
    DoubleIsLinear(a, b);
    XorExchanges(Double(a), Double(b), tweak);
  }

  lemma DoubleOfZero()
    ensures Double(ZERO_BLOCK) == ZERO_BLOCK
  {
    hide Xor, Double;
    XorWithItself(ZERO_BLOCK);
    DoubleIsLinear(ZERO_BLOCK, ZERO_BLOCK);
    XorWithItself(Double(ZERO_BLOCK));
  }

  lemma XorWithItself(a: Block)
    ensures Xor(a, a) == ZERO_BLOCK
  {
    forall i | 0 <= i < 16 ensures Xor(a, a)[i] == 0 { assert a[i] ^ a[i] == 0; }
  }

  lemma XorWithZero(a: Block)
    ensures Xor(ZERO_BLOCK, a) == a
  {
    forall i | 0 <= i < 16 ensures Xor(ZERO_BLOCK, a)[i] == a[i] { assert 0 ^ a[i] == a[i]; }
  }

  lemma XorExchanges(a: Block, b: Block, c: Block)
    ensures Xor(Xor(a, b), c) == Xor(Xor(a, c), b)
  {
    forall i | 0 <= i < 16 ensures Xor(Xor(a, b), c)[i] == Xor(Xor(a, c), b)[i] {
      assert (a[i] ^ b[i]) ^ c[i] == (a[i] ^ c[i]) ^ b[i];
    }
  }

  /** For one label, different tweaks reach the cipher as different inputs. */
  lemma HashInputKeepsTweaksApart(wire: Label, tweak: Block, tweak': Block)
    requires HashInput(wire, tweak) == HashInput(wire, tweak')
    ensures tweak == tweak'
  {
    hide Xor, Double;
    OtherTerm(Double(wire), tweak);
    OtherTerm(Double(wire), tweak');
  }

  /** The hash masks the cipher's output with its input. */
  lemma HashMasksTheCipher(aes: Cipher, wire: Label, tweak: Block)
    ensures Xor(Hash(aes, wire, tweak), HashInput(wire, tweak)) == aes(HashInput(wire, tweak))
  {
    hide Xor, HashInput;
    XorCancels(aes(HashInput(wire, tweak)), HashInput(wire, tweak));
  }

  // ---- the gates ----

  datatype GarbledAnd = GarbledAnd(garblerHalf: Label, evaluatorHalf: Label)

  /** The label that stands for `value` on a wire with zero label `zero`. */
  function Active(zero: Label, delta: Delta, value: bool): Label { AddIf(zero, delta, value) }

  function GarblerXor(left: Label, right: Label): Label { Xor(left, right) }

  function GarblerInvert(input: Label, delta: Delta): Label { Xor(input, delta) }

  /** garble_and: the output's zero label and the two-row table. */
  function GarbleAnd(aes: Cipher, delta: Delta, domain: Domain, ordinal: Ordinal, left: Label, right: Label)
    : (Label, GarbledAnd)
  {
    var garblerTweak, evaluatorTweak := Tweak(domain, ordinal, GarblerHalf), Tweak(domain, ordinal, EvaluatorHalf);
    var leftHashZero, leftHashOne := Hash(aes, left, garblerTweak), Hash(aes, Xor(left, delta), garblerTweak);
    var rightHashZero, rightHashOne := Hash(aes, right, evaluatorTweak), Hash(aes, Xor(right, delta), evaluatorTweak);
    var garblerHalf := AddIf(Xor(leftHashZero, leftHashOne), delta, SelectionBit(right));
    var garblerOutput := AddIf(leftHashZero, garblerHalf, SelectionBit(left));
    var evaluatorHalf := Xor(Xor(rightHashZero, rightHashOne), left);
    var evaluatorChoice := Xor(evaluatorHalf, left);
    var evaluatorOutput := AddIf(rightHashZero, evaluatorChoice, SelectionBit(right));
    (Xor(garblerOutput, evaluatorOutput), GarbledAnd(garblerHalf, evaluatorHalf))
  }

  function EvaluatorXor(left: Label, right: Label): Label { Xor(left, right) }

  function EvaluatorInvert(input: Label): Label { input }

  /** evaluate_and: from one active label per operand to the active output label. */
  function EvaluateAnd(aes: Cipher, domain: Domain, ordinal: Ordinal, left: Label, right: Label, table: GarbledAnd): Label {
    var garblerOutput := AddIf(Hash(aes, left, Tweak(domain, ordinal, GarblerHalf)), table.garblerHalf, SelectionBit(left));
    var evaluatorChoice := Xor(table.evaluatorHalf, left);
    var evaluatorOutput := AddIf(Hash(aes, right, Tweak(domain, ordinal, EvaluatorHalf)), evaluatorChoice, SelectionBit(right));
    Xor(garblerOutput, evaluatorOutput)
  }

  /** encode and decode of a table: the two halves side by side. */
  function EncodeTable(table: GarbledAnd): (s: seq<bv8>)
    ensures |s| == 32
  {
    table.garblerHalf + table.evaluatorHalf
  }

  function DecodeTable(s: seq<bv8>): GarbledAnd
    requires |s| == 32
  {
    GarbledAnd(s[..16], s[16..])
  }

  /** The garbler's row comes first. */
  lemma TableRoundTrip(table: GarbledAnd, s: seq<bv8>)
    ensures EncodeTable(table)[..16] == table.garblerHalf
    ensures DecodeTable(EncodeTable(table)) == table
    ensures |s| == 32 ==> EncodeTable(DecodeTable(s)) == s
  {
    assert EncodeTable(table)[..16] == table.garblerHalf && EncodeTable(table)[16..] == table.evaluatorHalf;
  }

  // ---- what the gates ask of the cipher ----

  /** What the cipher is asked for a label at one half of one gate. */
  function Question(wire: Label, domain: Domain, ordinal: Ordinal, half: Half): Block {
    HashInput(wire, Tweak(domain, ordinal, half))
  }

  /** A label is never asked about twice: different domains, gates or halves ask different questions. */
  lemma QuestionsDiffer(wire: Label, domain: Domain, ordinal: Ordinal, half: Half, domain': Domain, ordinal': Ordinal,
                        half': Half)
    requires Question(wire, domain, ordinal, half) == Question(wire, domain', ordinal', half')
    ensures domain == domain' && ordinal == ordinal' && half == half'
  {
    hide HashInput, Tweak;
    HashInputKeepsTweaksApart(wire, Tweak(domain, ordinal, half), Tweak(domain', ordinal', half'));
    TweakIsInjective(domain, ordinal, half, domain', ordinal', half');
  }

  /** Within one half, the two labels of a wire are different questions. */
  lemma LabelsAskDifferently(wire: Label, delta: Delta, domain: Domain, ordinal: Ordinal, half: Half)
    ensures Question(wire, domain, ordinal, half) != Question(Xor(wire, delta), domain, ordinal, half)
  {
    hide HashInput, Tweak, Xor;
    var tweak := Tweak(domain, ordinal, half);
    if HashInput(wire, tweak) == HashInput(Xor(wire, delta), tweak) {
      HashInputIsInjective(wire, Xor(wire, delta), tweak);
      OffsetIsNotZero(wire, delta);
    }
  }

  lemma OffsetIsNotZero(wire: Label, delta: Delta)
    ensures Xor(wire, delta) != wire
  {
    FlipsLowBit(wire[15], delta[15]);
    assert Xor(wire, delta)[15] == wire[15] ^ delta[15];
  }

  /** Garbling an AND gate asks four questions, the labels of the left wire at the garbler's half and those of the right wire
      at the evaluator's: ciphers that agree on them garble alike. */
  lemma GarbleAndAsks(aes: Cipher, aes': Cipher, delta: Delta, domain: Domain, ordinal: Ordinal, left: Label, right: Label)
    requires AgreeOn(aes, aes', left, domain, ordinal, GarblerHalf)
    requires AgreeOn(aes, aes', Xor(left, delta), domain, ordinal, GarblerHalf)
    requires AgreeOn(aes, aes', right, domain, ordinal, EvaluatorHalf)
    requires AgreeOn(aes, aes', Xor(right, delta), domain, ordinal, EvaluatorHalf)
    ensures GarbleAnd(aes, delta, domain, ordinal, left, right) == GarbleAnd(aes', delta, domain, ordinal, left, right)
  {
    hide Xor, HashInput, Tweak, SelectionBit;
  }

  /** Evaluating it asks two of them. */
  lemma EvaluateAndAsks(aes: Cipher, aes': Cipher, domain: Domain, ordinal: Ordinal, left: Label, right: Label, table: GarbledAnd)
    requires AgreeOn(aes, aes', left, domain, ordinal, GarblerHalf) && AgreeOn(aes, aes', right, domain, ordinal, EvaluatorHalf)
    ensures EvaluateAnd(aes, domain, ordinal, left, right, table) == EvaluateAnd(aes', domain, ordinal, left, right, table)
  {
    hide Xor, HashInput, Tweak, SelectionBit;
  }

  predicate AgreeOn(aes: Cipher, aes': Cipher, wire: Label, domain: Domain, ordinal: Ordinal, half: Half) {
    aes(Question(wire, domain, ordinal, half)) == aes'(Question(wire, domain, ordinal, half))
  }

  /** The two rows of a table hide the left label's offset and the right label's choice behind the cipher's answers. */
  lemma RowsAreMasked(aes: Cipher, delta: Delta, domain: Domain, ordinal: Ordinal, left: Label, right: Label)
    ensures var table := GarbleAnd(aes, delta, domain, ordinal, left, right).1;
            var g, e := Tweak(domain, ordinal, GarblerHalf), Tweak(domain, ordinal, EvaluatorHalf);
            && Xor(Xor(Hash(aes, left, g), Hash(aes, Xor(left, delta), g)), table.garblerHalf)
               == (if SelectionBit(right) then delta else ZERO_BLOCK)
            && Xor(Xor(Hash(aes, right, e), Hash(aes, Xor(right, delta), e)), table.evaluatorHalf) == left
  {
    hide Xor, Hash, Tweak, SelectionBit;
    var g, e := Tweak(domain, ordinal, GarblerHalf), Tweak(domain, ordinal, EvaluatorHalf);
    var h := Xor(Hash(aes, left, g), Hash(aes, Xor(left, delta), g));
    var k := Xor(Hash(aes, right, e), Hash(aes, Xor(right, delta), e));
    OtherTerm(h, delta);
    OtherTerm(k, left);
    XorWithItself(h);
  }

  // ---- byte facts behind the gates ----

  /** The selection bit is the lowest bit of the label as an integer. */
  lemma SelectionBitIsParity(l: Label)
    ensures SelectionBit(l) <==> Value(l) % 2 == 1
  {
    hide Value, Num;
    assert l == l[..15] + [l[15]];
    ValueAppend(l[..15], l[15]);
    LowByteParity(Value(l[..15]), Num(l[15]));
    NumParity(l[15]);
  }

  lemma NumParity(b: bv8)
    ensures Num(b) % 2 == 1 <==> b & 1 == 1
  {
  }

  lemma AddIfByte(x: Block, y: Block, choice: bool, i: nat)
    requires i < 16
    ensures AddIf(x, y, choice)[i] == x[i] ^ (if choice then y[i] else 0)
  {
    if !choice { assert x[i] ^ 0 == x[i]; }
  }

  /** The offset has its selection bit set, so adding it flips the selection bit. */
  lemma SelectionBitOfActive(zero: Label, delta: Delta, value: bool)
    ensures SelectionBit(Active(zero, delta, value)) <==> SelectionBit(zero) != value
  {
    AddIfByte(zero, delta, value, 15);
    FlipsLowBit(zero[15], delta[15]);
    assert zero[15] ^ 0 == zero[15];
  }

  lemma FlipsLowBit(b: bv8, d: bv8)
    requires d & 1 == 1
    ensures (b ^ d) & 1 == 1 <==> b & 1 != 1
  {
    assert (b ^ d) & 1 == (b & 1) ^ (d & 1);
    assert b & 1 == 0 || b & 1 == 1;
  }

  lemma GarblerHalfByte(h0: bv8, h1: bv8, d: bv8, pl: bool, pr: bool, a: bool)
    ensures var t := (h0 ^ h1) ^ (if pr then d else 0);
            (if a then h1 else h0) ^ (if pl != a then t else 0)
            == (h0 ^ (if pl then t else 0)) ^ (if a && pr then d else 0)
  {
  }

  lemma SumByte(x: bv8, y: bv8, d: bv8, p: bool, q: bool)
    ensures (x ^ (if p then d else 0)) ^ (y ^ (if q then d else 0)) == (x ^ y) ^ (if p != q then d else 0)
  {
  }

  /** The garbler's half gate computes `a` and the permutation bit of the right wire. */
  lemma GarblerHalfGate(h0: Block, h1: Block, delta: Block, pl: bool, pr: bool, a: bool)
    ensures var half := AddIf(Xor(h0, h1), delta, pr);
            AddIf(if a then h1 else h0, half, pl != a) == AddIf(AddIf(h0, half, pl), delta, a && pr)
  {
    var half := AddIf(Xor(h0, h1), delta, pr);
    var left, right := AddIf(if a then h1 else h0, half, pl != a), AddIf(AddIf(h0, half, pl), delta, a && pr);
    forall i | 0 <= i < 16 ensures left[i] == right[i] {
      AddIfByte(Xor(h0, h1), delta, pr, i);
      AddIfByte(if a then h1 else h0, half, pl != a, i);
      AddIfByte(h0, half, pl, i);
      AddIfByte(AddIf(h0, half, pl), delta, a && pr, i);
      GarblerHalfByte(h0[i], h1[i], delta[i], pl, pr, a);
    }
  }

  /** Offsets add up as bits do. */
  lemma OffsetsAdd(x: Block, y: Block, delta: Block, p: bool, q: bool)
    ensures Xor(AddIf(x, delta, p), AddIf(y, delta, q)) == AddIf(Xor(x, y), delta, p != q)
  {
    var left, right := Xor(AddIf(x, delta, p), AddIf(y, delta, q)), AddIf(Xor(x, y), delta, p != q);
    forall i | 0 <= i < 16 ensures left[i] == right[i] {
      AddIfByte(x, delta, p, i);
      AddIfByte(y, delta, q, i);
      AddIfByte(Xor(x, y), delta, p != q, i);
      SumByte(x[i], y[i], delta[i], p, q);
    }
  }

  lemma XorCommutes(a: Block, b: Block)
    ensures Xor(a, b) == Xor(b, a)
  {
    hide XorByte;
    forall i | 0 <= i < 16 ensures Xor(a, b)[i] == Xor(b, a)[i] { XorByteLaws(a[i], b[i], 0); }
  }

  /** Adding a sum to one of its terms leaves the other. */
  lemma OtherTerm(a: Block, b: Block)
    ensures Xor(a, Xor(a, b)) == b && Xor(b, Xor(a, b)) == a
  {
    hide Xor;
    XorCommutes(a, Xor(a, b));
    XorCommutes(b, Xor(a, b));
    XorCommutes(a, b);
    XorCancels(a, b);
    XorCancels(b, a);
  }

  /** The evaluator's half gate computes `a` and the masked right value. */
  lemma EvaluatorHalfGate(r0: Block, r1: Block, l0: Block, delta: Block, pr: bool, a: bool, b: bool)
    ensures var half := Xor(Xor(r0, r1), l0);
            AddIf(if b then r1 else r0, Xor(half, AddIf(l0, delta, a)), pr != b)
            == AddIf(AddIf(r0, Xor(half, l0), pr), delta, a && pr != b)
  {
    hide Xor;
    XorCancels(Xor(r0, r1), l0);
    OffsetsAdd(Xor(Xor(r0, r1), l0), l0, delta, false, a);
    OffsetsAdd(if b then r1 else r0, Xor(r0, r1), delta, false, a);
    OtherTerm(r0, r1);
  }

  // ---- the gates compute their truth tables ----

  lemma FreeXor(left: Label, right: Label, delta: Delta, a: bool, b: bool)
    ensures EvaluatorXor(Active(left, delta, a), Active(right, delta, b)) == Active(GarblerXor(left, right), delta, a != b)
  {
    OffsetsAdd(left, right, delta, a, b);
  }

  lemma FreeInvert(input: Label, delta: Delta, a: bool)
    ensures EvaluatorInvert(Active(input, delta, a)) == Active(GarblerInvert(input, delta), delta, !a)
  {
    hide Xor;
    XorCancels(input, delta);
  }

  /** For all labels, offsets, tweaks and input values, the evaluator's output label stands for the conjunction. */
  lemma HalfGatesAnd(aes: Cipher, delta: Delta, domain: Domain, ordinal: Ordinal, left: Label, right: Label, a: bool, b: bool)
    ensures var (zero, table) := GarbleAnd(aes, delta, domain, ordinal, left, right);
            EvaluateAnd(aes, domain, ordinal, Active(left, delta, a), Active(right, delta, b), table)
            == Active(zero, delta, a && b)
  {
    hide Xor, Tweak, Hash, SelectionBit;
    var g, e := Tweak(domain, ordinal, GarblerHalf), Tweak(domain, ordinal, EvaluatorHalf);
    var h0, h1, r0, r1 :=
      Hash(aes, left, g), Hash(aes, Xor(left, delta), g), Hash(aes, right, e), Hash(aes, Xor(right, delta), e);
    var pl, pr := SelectionBit(left), SelectionBit(right);
    var garblerHalf := AddIf(Xor(h0, h1), delta, pr);
    var evaluatorHalf := Xor(Xor(r0, r1), left);
    var x, y := AddIf(h0, garblerHalf, pl), AddIf(r0, Xor(evaluatorHalf, left), pr);
    SelectionBitOfActive(left, delta, a);
    SelectionBitOfActive(right, delta, b);
    GarblerHalfGate(h0, h1, delta, pl, pr, a);
    EvaluatorHalfGate(r0, r1, left, delta, pr, a, b);
    OffsetsAdd(x, y, delta, a && pr, a && pr != b);
  }
}
