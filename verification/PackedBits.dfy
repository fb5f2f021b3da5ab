/** Bits packed into bytes, low bit first. */
module PackedBits {
  import opened Results

  /** Bit `j` of a byte. */
  predicate BitAt(b: bv8, j: nat)
    requires j < 8
  {
    b & Mask(j) != 0
  }

  function Mask(j: nat): bv8
    requires j < 8
  {
    match j case 0 => 1 case 1 => 2 case 2 => 4 case 3 => 8 case 4 => 16 case 5 => 32 case 6 => 64 case _ => 128
  }

  lemma ZeroByte()
    ensures forall j :: 0 <= j < 8 ==> !BitAt(0, j)
  {
  }

  lemma SettingABit(b: bv8, i: nat, j: nat)
    requires i < 8 && j < 8
    ensures BitAt(b | Mask(i), j) <==> i == j || BitAt(b, j)
  {
    assert Mask(i) & Mask(j) != 0 <==> i == j;
    assert (b | Mask(i)) & Mask(j) == (b & Mask(j)) | (Mask(i) & Mask(j));
  }

  // ---- one byte of eight wires ----

  /** A byte shifted left by `k`, in sixteen bits. */
  function Shifted(b: bv8, k: nat): bv16
    requires k < 8
  {
    var w := b as bv16;
    match k case 0 => w case 1 => w << 1 case 2 => w << 2 case 3 => w << 3 case 4 => w << 4 case 5 => w << 5
            case 6 => w << 6 case _ => w << 7
  }

  /** The value collected from the first `k` of eight wires. */
  function Collected(wires: seq<bv8>, k: nat): bv16
    requires |wires| == 8 && k <= 8
  {
    if k == 0 then 0 else Collected(wires, k - 1) | Shifted(wires[k - 1], k - 1)
  }

  predicate AreBits(wires: seq<bv8>) { forall i :: 0 <= i < |wires| ==> wires[i] == 0 || wires[i] == 1 }

  /** The byte whose bits are the first `k` wires. */
  function ByteOfBits(wires: seq<bv8>, k: nat): bv8
    requires |wires| == 8 && k <= 8
  {
    if k == 0 then 0 else ByteOfBits(wires, k - 1) | if wires[k - 1] == 1 then Mask(k - 1) else 0
  }

  lemma ShiftedBit(b: bv8, k: nat)
    requires k < 8 && (b == 0 || b == 1)
    ensures Shifted(b, k) == (if b == 1 then Mask(k) else 0) as bv16
  {
  }

  lemma Widen(a: bv8, b: bv8)
    ensures (a as bv16) | (b as bv16) == (a | b) as bv16
  {
  }

  /** Wires that carry bits collect to the byte with those bits. */
  lemma {:induction false} BitsCollect(wires: seq<bv8>, k: nat)
    requires |wires| == 8 && k <= 8 && AreBits(wires)
    ensures Collected(wires, k) == ByteOfBits(wires, k) as bv16
  {
    hide Shifted, Mask;
    if k > 0 {
      BitsCollect(wires, k - 1);
      ShiftedBit(wires[k - 1], k - 1);
      Widen(ByteOfBits(wires, k - 1), if wires[k - 1] == 1 then Mask(k - 1) else 0);
    }
  }

  lemma {:induction false} BitsOfByte(wires: seq<bv8>, k: nat, j: nat)
    requires |wires| == 8 && k <= 8 && j < 8
    ensures BitAt(ByteOfBits(wires, k), j) <==> j < k && wires[j] == 1
  {
    hide BitAt, Mask;
    if k == 0 {
      ZeroByte();
    } else {
      BitsOfByte(wires, k - 1, j);
      SettingABit(ByteOfBits(wires, k - 1), k - 1, j);
      OrZero(ByteOfBits(wires, k - 1));
    }
  }

  lemma OrZero(b: bv8)
    ensures b | 0 == b
  {
  }

  // ---- a whole output ----

  function Eight(wires: seq<bv8>, j: nat): (r: seq<bv8>)
    requires 8 * j + 8 <= |wires|
    ensures |r| == 8
  {
    wires[8 * j..8 * j + 8]
  }

  /** Every group of eight collects to a byte. */
  ghost predicate Collects(wires: seq<bv8>) {
    |wires| % 8 == 0 && forall j: nat :: 8 * j + 8 <= |wires| ==> Collected(Eight(wires, j), 8) < 256
  }

  /** Byte `j` collects the `j`-th group of eight. */
  ghost predicate Packs(wires: seq<bv8>, bytes: seq<bv8>) {
    8 * |bytes| == |wires| && forall j :: 0 <= j < |bytes| ==> bytes[j] as bv16 == Collected(Eight(wires, j), 8)
  }

  lemma CollectedUnfold(wires: seq<bv8>, n: nat)
    requires |wires| == 8 && n <= 8
    ensures Collected(wires, n) == if n == 0 then 0 else Collected(wires, n - 1) | Shifted(wires[n - 1], n - 1)
  {
  }

  lemma EightAt(wires: seq<bv8>, j: nat, bit: nat)
    requires 8 * j + 8 <= |wires| && bit < 8
    ensures Eight(wires, j)[bit] == wires[j * 8 + bit]
  {
  }

  /** One byte of it. */
  method CollectEight(wires: seq<bv8>, index: nat) returns (value: bv16)
    requires 8 * index + 8 <= |wires|
    ensures value == Collected(Eight(wires, index), 8)
  {
    hide Shifted, Collected, Eight;
    value := 0;
    CollectedUnfold(Eight(wires, index), 0);
    for bit := 0 to 8
      invariant value == Collected(Eight(wires, index), bit)
    {
      CollectedUnfold(Eight(wires, index), bit + 1);
      EightAt(wires, index, bit);
      value := value | Shifted(wires[index * 8 + bit], bit);
    }
  }

  /** _bits_to_bytes: refused exactly when the wires do not fill bytes, or collect to more than a byte. */
  method BitsToBytes(wires: seq<bv8>) returns (r: Result<seq<bv8>>)
    ensures r.Ok? <==> Collects(wires)
    ensures r.Ok? ==> Packs(wires, r.value)
  {
    hide Collected, Eight;
    if |wires| % 8 != 0 { return Err("output bit count is not byte aligned"); }
    var output := new bv8[|wires| / 8](_ => 0);
    for index := 0 to output.Length
      invariant forall j :: 0 <= j < index ==> output[j] as bv16 == Collected(Eight(wires, j), 8)
      invariant forall j :: 0 <= j < index ==> Collected(Eight(wires, j), 8) < 256
    {
      var value := CollectEight(wires, index);
      if value >= 256 { return Err("byte must be in range(0, 256)"); }
      output[index] := value as bv8;
    }
    return Ok(output[..]);
  }

  /** Wires that carry bits always collect, and bit `i` of the bytes is wire `i`. */
  lemma BitsArePacked(wires: seq<bv8>, bytes: seq<bv8>)
    requires |wires| % 8 == 0 && AreBits(wires)
    ensures Collects(wires)
    ensures Packs(wires, bytes) ==> forall i :: 0 <= i < |wires| ==> (BitAt(bytes[i / 8], i % 8) <==> wires[i] == 1)
  {
    hide Collected, ByteOfBits, BitAt;
    forall j: nat | 8 * j + 8 <= |wires|
      ensures Collected(Eight(wires, j), 8) == ByteOfBits(Eight(wires, j), 8) as bv16 < 256
    {
      BitsCollect(Eight(wires, j), 8);
    }
    if Packs(wires, bytes) {
      forall i | 0 <= i < |wires| ensures BitAt(bytes[i / 8], i % 8) <==> wires[i] == 1 {
        BitsOfByte(Eight(wires, i / 8), 8, i % 8);
        Narrow(bytes[i / 8], ByteOfBits(Eight(wires, i / 8), 8));
      }
    }
  }

  lemma Narrow(a: bv8, b: bv8)
    ensures a as bv16 == b as bv16 ==> a == b
  {
  }
}
