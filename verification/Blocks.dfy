/** Sixteen-byte blocks: exclusive or, the integers they spell, and doubling in GF(2^128).

    Facts about single bytes are proved in lemmas of their own; the proofs about blocks hide the byte
    operations and compose those facts. */
module Blocks {
  import opened Bytes

  // ---- one byte ----

  function XorByte(a: bv8, b: bv8): bv8 { a ^ b }

  /** A byte of the doubled block: its own low seven bits and the top bit of the next byte. */
  function ShiftedByte(high: bv8, low: bv8): bv8 { (high << 1) | (low >> 7) }

  predicate TopBit(b: bv8) { b >> 7 == 1 }

  function ShiftedLeft(b: bv8): bv8 { b << 1 }

  const REDUCTION: bv8 := 0x87

  function Num(b: bv8): (n: nat)
    ensures n < 256
  {
    b as nat
  }

  /** The byte of a number below 256. */
  function ByteOf(n: nat): (b: bv8)
    requires n < 256
    ensures Num(b) == n
  {
    if n == 0 then 0 else NextNum(ByteOf(n - 1)); ByteOf(n - 1) + 1
  }

  lemma NextNum(b: bv8)
    requires Num(b) < 255
    ensures Num(b + 1) == Num(b) + 1
  {
  }

  function Bit(b: bool): nat { if b then 1 else 0 }

  lemma NumInjective(a: bv8, b: bv8)
    requires Num(a) == Num(b)
    ensures a == b
  {
  }

  lemma TopBitNum(b: bv8)
    ensures TopBit(b) <==> Num(b) >= 128
  {
  }

  lemma ShiftedNum(high: bv8, low: bv8)
    ensures Num(ShiftedByte(high, low)) == 2 * Num(high) - 256 * Bit(TopBit(high)) + Bit(TopBit(low))
  {
  }

  lemma ShiftedLeftNum(b: bv8)
    ensures Num(ShiftedLeft(b)) == 2 * Num(b) - 256 * Bit(TopBit(b))
  {
  }

  lemma RawShift(a: bv8, b: bv8, c: bv8, d: bv8)
    ensures ((a ^ b) << 1) | ((c ^ d) >> 7) == ((a << 1) | (c >> 7)) ^ ((b << 1) | (d >> 7))
  {
  }

  lemma ShiftedByteIsLinear(a: bv8, b: bv8, c: bv8, d: bv8)
    ensures ShiftedByte(XorByte(a, b), XorByte(c, d)) == XorByte(ShiftedByte(a, c), ShiftedByte(b, d))
  {
    RawShift(a, b, c, d);
    assert XorByte(a, b) == a ^ b && XorByte(c, d) == c ^ d;
    assert ShiftedByte(a, c) == (a << 1) | (c >> 7) && ShiftedByte(b, d) == (b << 1) | (d >> 7);
  }

  lemma ShiftedLeftIsLinear(a: bv8, b: bv8)
    ensures ShiftedLeft(XorByte(a, b)) == XorByte(ShiftedLeft(a), ShiftedLeft(b))
    ensures TopBit(XorByte(a, b)) <==> TopBit(a) != TopBit(b)
  {
    assert (a ^ b) << 1 == (a << 1) ^ (b << 1);
    assert (a ^ b) >> 7 == (a >> 7) ^ (b >> 7);
    assert (a >> 7 == 0 || a >> 7 == 1) && (b >> 7 == 0 || b >> 7 == 1);
  }

  lemma XorByteLaws(a: bv8, b: bv8, c: bv8)
    ensures XorByte(a, b) == XorByte(b, a)
    ensures XorByte(XorByte(a, b), c) == XorByte(a, XorByte(b, c))
    ensures XorByte(XorByte(a, b), b) == a
    ensures XorByte(a, 0) == a
  {
    assert (a ^ b) ^ c == a ^ (b ^ c) && (a ^ b) ^ b == a && a ^ 0 == a;
  }

  // ---- blocks ----

  /** A block of sixteen bytes, most significant first. */
  type Block = s: seq<bv8> | |s| == 16 witness seq(16, _ => 0)

  function Xor(a: Block, b: Block): Block {
    seq(16, i requires 0 <= i < 16 => XorByte(a[i], b[i]))
  }

  function AddIf(a: Block, b: Block, choice: bool): Block {
    if choice then Xor(a, b) else a
  }

  // ---- the integer of a byte string ----

  function Value(s: seq<bv8>): (x: nat)
    ensures x < Pow256(|s|)
  {
    if s == [] then 0 else Value(s[..|s| - 1]) * 256 + Num(s[|s| - 1])
  }

  lemma ValueAppend(s: seq<bv8>, b: bv8)
    ensures Value(s + [b]) == Value(s) * 256 + Num(b)
  {
    hide Num;
    assert (s + [b])[..|s|] == s;
  }

  lemma Distribute(v: nat, p: nat, w: nat)
    ensures (v * p + w) * 256 == v * (256 * p) + w * 256
  {
  }

  lemma {:induction false} ValueConcat(s: seq<bv8>, t: seq<bv8>)
    ensures Value(s + t) == Value(s) * Pow256(|t|) + Value(t)
  {
    hide Num;
    if t == [] {
      assert s + t == s;
    } else {
      var n := |t| - 1;
      ValueConcat(s, t[..n]);
      assert s + t == (s + t[..n]) + [t[n]];
      ValueAppend(s + t[..n], t[n]);
      Distribute(Value(s), Pow256(n), Value(t[..n]));
    }
  }

  /** Byte strings of one length are determined by their integer. */
  lemma {:induction false} ValueInjective(a: seq<bv8>, b: seq<bv8>)
    requires |a| == |b| && Value(a) == Value(b)
    ensures a == b
  {
    hide Num;
    if a != [] {
      var n := |a| - 1;
      assert Value(a[..n]) == Value(b[..n]) && Num(a[n]) == Num(b[n]);
      ValueInjective(a[..n], b[..n]);
      NumInjective(a[n], b[n]);
      assert a == a[..n] + [a[n]] && b == b[..n] + [b[n]];
    }
  }

  /** u64::to_be_bytes. */
  function ToBytes(x: nat, w: nat): (s: seq<bv8>)
    requires x < Pow256(w)
    ensures |s| == w
  {
    if w == 0 then [] else ToBytes(x / 256, w - 1) + [ByteOf(x % 256)]
  }

  lemma {:induction false} ValueOfToBytes(x: nat, w: nat)
    requires x < Pow256(w)
    ensures Value(ToBytes(x, w)) == x
  {
    hide Num, ByteOf, Value;
    if w > 0 {
      ValueOfToBytes(x / 256, w - 1);
      var high, low := ToBytes(x / 256, w - 1), ByteOf(x % 256);
      assert ToBytes(x, w) == high + [low];
      hide ToBytes, Pow256;
      ValueAppend(high, low);
      NumOfByte(x % 256);
      assert x == x / 256 * 256 + x % 256;
    } else {
      ValueOfNothing();
    }
  }

  lemma ValueOfNothing()
    ensures Value([]) == 0
  {
  }

  lemma NumOfByte(n: nat)
    requires n < 256
    ensures Num(ByteOf(n)) == n
  {
  }

  // ---- doubling ----

  /** The last byte takes the reduction when the block's top bit was set. */
  function ReducedByte(first: bv8, last: bv8): bv8 {
    XorByte(ShiftedLeft(last), if TopBit(first) then REDUCTION else 0)
  }

  function Double(a: Block): Block {
    seq(16, i requires 0 <= i < 16 => if i < 15 then ShiftedByte(a[i], a[i + 1]) else ReducedByte(a[0], a[15]))
  }

  lemma CarryStep(w: nat, o: nat, p: nat, byte: nat, top: nat, carry: nat, next: nat)
    requires o == 2 * w + carry - top * p
    ensures o * 256 + (2 * byte - 256 * carry + next) == 2 * (w * 256 + byte) + next - top * (256 * p)
  {
    Distribute(top, p, 0);
  }

  /** After `k` bytes the output is the doubled input, with the next byte's top bit coming in and the
      block's top bit dropped. */
  lemma {:induction false} DoublePrefix(a: Block, k: nat)
    requires k <= 15
    ensures Value(Double(a)[..k]) == 2 * Value(a[..k]) + Bit(TopBit(a[k])) - Bit(TopBit(a[0])) * Pow256(k)
  {
    hide Num, TopBit, Double, Value, Bit, Pow256;
    if k == 0 {
      assert Double(a)[..0] == [] && a[..0] == [];
      ValueOfNothing();
      PowStep(0);
    } else {
      DoublePrefix(a, k - 1);
      DoubledByte(a, k - 1);
      TakeOneMore(a, k - 1);
      TakeOneMore(Double(a), k - 1);
      ValueAppend(a[..k - 1], a[k - 1]);
      ValueAppend(Double(a)[..k - 1], Double(a)[k - 1]);
      PowStep(k - 1);
      CarryStep(Value(a[..k - 1]), Value(Double(a)[..k - 1]), Pow256(k - 1), Num(a[k - 1]),
                Bit(TopBit(a[0])), Bit(TopBit(a[k - 1])), Bit(TopBit(a[k])));
    }
  }

  lemma TakeOneMore(s: seq<bv8>, k: nat)
    requires k < |s|
    ensures s[..k + 1] == s[..k] + [s[k]]
  {
  }

  lemma PowStep(k: nat)
    ensures Pow256(k + 1) == 256 * Pow256(k) && Pow256(0) == 1
  {
  }

  /** A byte of the doubled block, short of the last. */
  lemma DoubledByte(a: Block, k: nat)
    requires k < 15
    ensures Num(Double(a)[k]) == 2 * Num(a[k]) - 256 * Bit(TopBit(a[k])) + Bit(TopBit(a[k + 1]))
  {
    hide Num, TopBit, ShiftedByte, ReducedByte, Bit;
    ShiftedNum(a[k], a[k + 1]);
  }

  lemma Halves(n: nat, p: nat, low: nat)
    requires low < p
    ensures n >= 128 <==> 2 * (n * p + low) >= 256 * p
  {
    if n >= 128 { Scale(128, n, p); } else { Scale(n, 127, p); }
  }

  lemma Scale(a: nat, b: nat, p: nat)
    requires a <= b
    ensures a * p <= b * p
  {
  }

  /** Two to the 128th. */
  function Modulus(): nat { Pow256(16) }

  lemma ModulusStep(k: nat)
    requires k == 15
    ensures Modulus() == 256 * Pow256(k)
  {
  }

  lemma TopBitIsHalf(a: Block)
    ensures TopBit(a[0]) <==> 2 * Value(a) >= Modulus()
  {
    hide Num, TopBit, Pow256, Modulus;
    ModulusStep(|a[1..]|);
    assert a == a[..1] + a[1..];
    ValueConcat(a[..1], a[1..]);
    assert a[..1] == [] + [a[0]];
    ValueAppend([], a[0]);
    TopBitNum(a[0]);
    Halves(Num(a[0]), Pow256(|a[1..]|), Value(a[1..]));
  }

  /** Exclusive or of a number with a byte changes its low byte only. */
  function XorLow(x: nat, r: bv8): nat {
    x / 256 * 256 + Num(XorByte(ByteOf(x % 256), r))
  }

  lemma XorLowOf(high: nat, low: bv8, r: bv8)
    ensures XorLow(high * 256 + Num(low), r) == high * 256 + Num(XorByte(low, r))
  {
    hide Num, ByteOf, XorByte;
    var y := high * 256 + Num(low);
    assert y / 256 == high && y % 256 == Num(low);
    NumInjective(ByteOf(Num(low)), low);
  }

  /** The byte loop doubles the 128-bit integer: shift left by one, and when that overflows drop the
      overflow and add 0x87, the doubling of section 2.3 of RFC 5297. */
  lemma DoubleIsShiftAndReduce(a: Block)
    ensures Value(Double(a)) == if 2 * Value(a) < Modulus() then 2 * Value(a)
                                else XorLow(2 * Value(a) - Modulus(), REDUCTION)
  {
    hide Num, ByteOf, TopBit, ShiftedByte, ShiftedLeft, XorByte, XorLow, Pow256, Modulus;
    var last, high, top := ShiftedLeft(a[15]), Value(Double(a)[..15]), Bit(TopBit(a[0]));
    var k := |a| - 1;
    ModulusStep(k);
    ShiftedLeftNum(a[15]);
    DoublePrefix(a, k);
    assert a == a[..15] + [a[15]];
    assert Double(a) == Double(a)[..15] + [ReducedByte(a[0], a[15])];
    hide Double, Value;
    ValueAppend(a[..15], a[15]);
    ValueAppend(Double(a)[..15], ReducedByte(a[0], a[15]));
    CarryStep(Value(a[..15]), high, Pow256(k), Num(a[15]), top, Bit(TopBit(a[15])), 0);
    TopBitIsHalf(a);
    XorLowOf(high, last, REDUCTION);
    XorByteLaws(last, 0, 0);
  }

  lemma ReducedByteIsLinear(a: bv8, b: bv8, c: bv8, d: bv8)
    ensures ReducedByte(XorByte(a, b), XorByte(c, d)) == XorByte(ReducedByte(a, c), ReducedByte(b, d))
  {
    hide XorByte, ShiftedLeft, TopBit;
    ShiftedLeftIsLinear(a, b);
    ShiftedLeftIsLinear(c, d);
    XorByteFour(ShiftedLeft(c), ShiftedLeft(d), REDUCTION);
  }

  lemma XorByteFour(c: bv8, d: bv8, r: bv8)
    ensures XorByte(XorByte(c, d), r) == XorByte(XorByte(c, r), XorByte(d, 0))
    ensures XorByte(XorByte(c, d), r) == XorByte(XorByte(c, 0), XorByte(d, r))
    ensures XorByte(XorByte(c, d), 0) == XorByte(XorByte(c, r), XorByte(d, r))
    ensures XorByte(XorByte(c, d), 0) == XorByte(XorByte(c, 0), XorByte(d, 0))
  {
    hide XorByte;
    XorByteLaws(c, d, r);
    XorByteLaws(d, r, d);
    XorByteLaws(c, r, d);
    XorByteLaws(XorByte(c, r), r, d);
    XorByteLaws(d, 0, 0);
    XorByteLaws(c, 0, 0);
    XorByteLaws(XorByte(c, d), 0, 0);
  }

  /** Doubling distributes over exclusive or. */
  lemma DoubleIsLinear(a: Block, b: Block)
    ensures Double(Xor(a, b)) == Xor(Double(a), Double(b))
  {
    hide ShiftedByte, ReducedByte, XorByte;
    forall i | 0 <= i < 16 ensures Double(Xor(a, b))[i] == Xor(Double(a), Double(b))[i] {
      if i < 15 {
        ShiftedByteIsLinear(a[i], b[i], a[i + 1], b[i + 1]);
      } else {
        ReducedByteIsLinear(a[0], b[0], a[15], b[15]);
      }
    }
  }

  lemma XorLowInjective(y: nat, z: nat, r: bv8)
    requires XorLow(y, r) == XorLow(z, r)
    ensures y == z
  {
    hide Num, ByteOf, XorByte;
    var b, c := ByteOf(y % 256), ByteOf(z % 256);
    assert y / 256 == z / 256 && Num(XorByte(b, r)) == Num(XorByte(c, r));
    NumInjective(XorByte(b, r), XorByte(c, r));
    XorByteLaws(b, r, r);
    XorByteLaws(c, r, r);
  }

  lemma ReductionIsOdd(b: bv8)
    ensures Num(XorByte(b, REDUCTION)) % 2 != Num(b) % 2
  {
  }

  lemma XorLowParity(y: nat)
    ensures XorLow(y, REDUCTION) % 2 != y % 2
  {
    hide Num, ByteOf, XorByte;
    ReductionIsOdd(ByteOf(y % 256));
    LowByteParity(y / 256, y % 256);
    LowByteParity(y / 256, Num(XorByte(ByteOf(y % 256), REDUCTION)));
  }

  lemma LowByteParity(high: nat, low: nat)
    ensures (high * 256 + low) % 2 == low % 2
  {
    assert high * 256 == 2 * (high * 128);
  }

  /** Doubling loses nothing: a reduced result is odd, any other is even. */
  lemma DoubleIsInjective(a: Block, b: Block)
    requires Double(a) == Double(b)
    ensures a == b
  {
    hide Double, Value, XorLow, Pow256, Modulus;
    var k := |a| - 1;
    ModulusStep(k);
    assert Modulus() == 2 * (128 * Pow256(k));
    DoubleIsShiftAndReduce(a);
    DoubleIsShiftAndReduce(b);
    var x, y, overflow := 2 * Value(a), 2 * Value(b), Modulus();
    if x >= overflow { XorLowParity(x - overflow); }
    if y >= overflow { XorLowParity(y - overflow); }
    if x >= overflow && y >= overflow { XorLowInjective(x - overflow, y - overflow, REDUCTION); }
    ValueInjective(a, b);
  }

  // ---- the byte loops of the source ----

  /** Byte loop of WireLabel.xor, and of the loops that add a tweak or a cipher block. */
  method XorArrays(a: array<bv8>, b: array<bv8>) returns (output: array<bv8>)
    requires a.Length == b.Length == 16
    ensures output.Length == 16 && fresh(output) && output[..] == Xor(a[..], b[..])
  {
    hide XorByte;
    output := new bv8[16](_ => 0);
    var index := 0;
    while index < 16
      invariant 0 <= index <= 16
      invariant forall i :: 0 <= i < index ==> output[i] == XorByte(a[i], b[i])
    {
      output[index] := XorByte(a[index], b[index]);
      index := index + 1;
    }
  }

  /** SecretBlock.conditional_xor: adds `other` in place when the choice bit is set. */
  method ConditionalXor(a: array<bv8>, other: array<bv8>, choice: bool)
    requires a.Length == other.Length == 16 && a != other
    modifies a
    ensures a[..] == AddIf(old(a[..]), other[..], choice)
  {
    hide XorByte;
    var index := 0;
    while index < 16
      invariant 0 <= index <= 16
      invariant forall i :: 0 <= i < index ==> a[i] == if choice then XorByte(old(a[i]), other[i]) else old(a[i])
      invariant forall i :: index <= i < 16 ==> a[i] == old(a[i])
    {
      XorByteLaws(a[index], 0, 0);
      a[index] := XorByte(a[index], if choice then other[index] else 0);
      index := index + 1;
    }
  }

  /** double_gf128. */
  method DoubleArray(input: array<bv8>) returns (output: array<bv8>)
    requires input.Length == 16
    ensures output.Length == 16 && fresh(output) && output[..] == Double(input[..])
  {
    hide XorByte, ShiftedByte, ShiftedLeft, TopBit;
    var carry := TopBit(input[0]);
    output := new bv8[16](_ => 0);
    var index := 0;
    while index + 1 < 16
      invariant 0 <= index <= 15
      invariant forall i :: 0 <= i < index ==> output[i] == ShiftedByte(input[i], input[i + 1])
    {
      output[index] := ShiftedByte(input[index], input[index + 1]);
      index := index + 1;
    }
    output[15] := ShiftedLeft(input[15]);
    output[15] := XorByte(output[15], if carry then REDUCTION else 0);
    assert output[15] == ReducedByte(input[0], input[15]);
    hide ReducedByte;
    forall i | 0 <= i < 16 ensures output[..][i] == Double(input[..])[i] {}
  }
}
