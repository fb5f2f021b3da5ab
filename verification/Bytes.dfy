/** Fixed-width big-endian integers and the artifact reader. */
module Bytes {

  type Byte = b: int | 0 <= b < 256

  /** A 32-byte digest. */
  type Digest = d: seq<Byte> | |d| == 32 witness seq(32, _ => 0)

  /** SHA-256, of which only the digest length is used. */
  type Hash = seq<Byte> -> Digest

  /** The bytes of an ASCII literal. */
  function Ascii(s: string): (r: seq<Byte>)
    ensures |r| == |s|
  {
    seq(|s|, i requires 0 <= i < |s| => s[i] as int % 256)
  }

  const TWO32: nat := 0x1_0000_0000
  const TWO64: nat := 0x1_0000_0000_0000_0000

  function Pow256(w: nat): (p: nat)
    ensures p > 0
  {
    if w == 0 then 1 else 256 * Pow256(w - 1)
  }

  /** int.to_bytes(w, "big") for a value that fits. */
  function BigEndian(x: nat, w: nat): (s: seq<Byte>)
    requires x < Pow256(w)
    ensures |s| == w
  {
    if w == 0 then [] else BigEndian(x / 256, w - 1) + [x % 256]
  }

  /** int.from_bytes(s, "big"). */
  function FromBigEndian(s: seq<Byte>): (x: nat)
    ensures x < Pow256(|s|)
  {
    if s == [] then 0 else FromBigEndian(s[..|s| - 1]) * 256 + s[|s| - 1]
  }

  lemma {:induction false} BigEndianRoundTrip(x: nat, w: nat)
    requires x < Pow256(w)
    ensures FromBigEndian(BigEndian(x, w)) == x
  {
    if w > 0 {
      BigEndianRoundTrip(x / 256, w - 1);
      assert BigEndian(x, w)[..w - 1] == BigEndian(x / 256, w - 1);
    }
  }

  lemma {:induction false} FromBigEndianRoundTrip(s: seq<Byte>)
    ensures BigEndian(FromBigEndian(s), |s|) == s
  {
    if s != [] {
      FromBigEndianRoundTrip(s[..|s| - 1]);
      var high, low := FromBigEndian(s[..|s| - 1]), s[|s| - 1];
      assert (high * 256 + low) / 256 == high && (high * 256 + low) % 256 == low;
      assert s == s[..|s| - 1] + [s[|s| - 1]];
    }
  }

  /** Equal-width encodings of different numbers differ. */
  lemma BigEndianInjective(x: nat, y: nat, w: nat)
    requires x < Pow256(w) && y < Pow256(w) && BigEndian(x, w) == BigEndian(y, w)
    ensures x == y
  {
    BigEndianRoundTrip(x, w);
    BigEndianRoundTrip(y, w);
  }

  lemma Pow256Of8()
    ensures Pow256(8) == TWO64
  {
    Pow256Values();
    assert Pow256(5) == 256 * Pow256(4) && Pow256(6) == 256 * Pow256(5) && Pow256(7) == 256 * Pow256(6);
  }

  lemma Pow256Values()
    ensures Pow256(1) == 0x100 && Pow256(2) == 0x1_0000 && Pow256(3) == 0x100_0000 && Pow256(4) == 0x1_0000_0000
  {
    assert Pow256(2) == 256 * Pow256(1);
    assert Pow256(3) == 256 * Pow256(2);
    assert Pow256(4) == 256 * Pow256(3);
  }

  /** A 32-bit and a 64-bit big-endian integer. */
  function Word(x: nat): (s: seq<Byte>)
    requires x < TWO32
    ensures |s| == 4
  {
    Pow256Values();
    BigEndian(x, 4)
  }

  function LongWord(x: nat): (s: seq<Byte>)
    requires x < TWO64
    ensures |s| == 8
  {
    Pow256Of8();
    BigEndian(x, 8)
  }

  lemma WordInjective(x: nat, y: nat)
    requires x < TWO32 && y < TWO32 && Word(x) == Word(y)
    ensures x == y
  {
    hide BigEndian, Pow256;
    Pow256Values();
    BigEndianInjective(x, y, 4);
  }

  lemma LongWordInjective(x: nat, y: nat)
    requires x < TWO64 && y < TWO64 && LongWord(x) == LongWord(y)
    ensures x == y
  {
    hide BigEndian, Pow256;
    Pow256Of8();
    BigEndianInjective(x, y, 8);
  }

  /** Reader: a cursor over one artifact. */
  class Reader {
    const data: seq<Byte>
    var offset: nat

    ghost predicate Valid() reads this { offset <= |data| }

    /** What has not been read yet. */
    function Rest(): seq<Byte>
      requires Valid()
      reads this
    {
      data[offset..]
    }

    constructor (data: seq<Byte>)
      ensures Valid() && this.data == data && offset == 0 && Rest() == data
    {
      this.data := data;
      offset := 0;
    }

    /** The next `count` bytes; fails and leaves the cursor alone when there are fewer. */
    method Take(count: nat) returns (ok: bool, value: seq<Byte>)
      requires Valid()
      modifies this
      ensures Valid()
      ensures ok <==> count <= old(|Rest()|)
      ensures ok ==> |value| == count && value + Rest() == old(Rest())
      ensures !ok ==> offset == old(offset)
    {
      var end := offset + count;
      if end > |data| { return false, []; }
      ok, value := true, data[offset..end];
      offset := end;
    }

    /** The next `count` bytes as a big-endian number. */
    method Integer(count: nat) returns (ok: bool, value: nat)
      requires Valid()
      modifies this
      ensures Valid()
      ensures ok <==> count <= old(|Rest()|)
      ensures ok ==> value < Pow256(count) && BigEndian(value, count) + Rest() == old(Rest())
      ensures !ok ==> offset == old(offset)
    {
      var bytes;
      ok, bytes := Take(count);
      value := FromBigEndian(bytes);
      if ok { FromBigEndianRoundTrip(bytes); }
    }
  }

  /** Reading a number that was written with the same width gives it back and leaves the tail. */
  lemma ReadsWhatWasWritten(x: nat, y: nat, w: nat, rest: seq<Byte>, tail: seq<Byte>)
    requires x < Pow256(w) && y < Pow256(w) && BigEndian(x, w) + rest == BigEndian(y, w) + tail
    ensures x == y && rest == tail
  {
    SplitConcat(BigEndian(x, w), rest, BigEndian(y, w), tail);
    BigEndianInjective(x, y, w);
  }

  lemma SplitConcat<T>(a: seq<T>, b: seq<T>, c: seq<T>, d: seq<T>)
    requires |a| == |c| && a + b == c + d
    ensures a == c && b == d
  {
    assert a == (a + b)[..|a|] && c == (c + d)[..|a|];
    assert b == (a + b)[|a|..] && d == (c + d)[|a|..];
  }

  lemma PrefixTail<T>(a: seq<T>, f: seq<T>, rest: seq<T>)
    requires a + f <= a + rest
    ensures f <= rest
  {
    var both := a + rest;
    assert forall i :: 0 <= i < |f| ==> f[i] == (a + f)[|a| + i] && both[|a| + i] == rest[i];
  }

  // ---- sequences of records of one size ----

  function Flat(records: seq<seq<Byte>>): seq<Byte> {
    if records == [] then [] else Flat(records[..|records| - 1]) + records[|records| - 1]
  }

  predicate Uniform(records: seq<seq<Byte>>, n: nat) {
    forall i :: 0 <= i < |records| ==> |records[i]| == n
  }

  lemma FlatAppend(records: seq<seq<Byte>>, record: seq<Byte>)
    ensures Flat(records + [record]) == Flat(records) + record
  {
    assert (records + [record])[..|records|] == records;
  }

  lemma {:induction false} FlatLength(records: seq<seq<Byte>>, n: nat)
    requires Uniform(records, n)
    ensures |Flat(records)| == |records| * n
  {
    if records != [] {
      FlatLength(records[..|records| - 1], n);
      assert |records| * n == (|records| - 1) * n + n;
    }
  }

  lemma {:induction false} FlatPrefix(records: seq<seq<Byte>>, k: nat)
    requires k <= |records|
    ensures Flat(records[..k]) <= Flat(records)
  {
    if k < |records| {
      var front := records[..|records| - 1];
      FlatPrefix(front, k);
      assert front[..k] == records[..k];
    } else {
      assert records[..k] == records;
    }
  }

  lemma {:induction false} FlatInjective(a: seq<seq<Byte>>, b: seq<seq<Byte>>, n: nat)
    requires |a| == |b| && Uniform(a, n) && Uniform(b, n) && Flat(a) == Flat(b)
    ensures a == b
  {
    if a != [] {
      var k := |a| - 1;
      FlatLength(a[..k], n);
      FlatLength(b[..k], n);
      SplitConcat(Flat(a[..k]), a[k], Flat(b[..k]), b[k]);
      FlatInjective(a[..k], b[..k], n);
      assert a == a[..k] + [a[k]] && b == b[..k] + [b[k]];
    }
  }

  /** Records read from the front of an encoding are a prefix of the encoded records. */
  lemma ReadRecordsArePrefix(read: seq<seq<Byte>>, written: seq<seq<Byte>>, n: nat, rest: seq<Byte>, start: seq<Byte>)
    requires Uniform(read, n) && Uniform(written, n) && |read| <= |written|
    requires Flat(read) + rest == start && Flat(written) <= start
    ensures read == written[..|read|]
  {
    FlatPrefix(written, |read|);
    FlatLength(read, n);
    FlatLength(written[..|read|], n);
    assert Flat(written[..|read|]) == start[..|read| * n] == Flat(read);
    FlatInjective(read, written[..|read|], n);
  }

  lemma AppendRead(records: seq<seq<Byte>>, record: seq<Byte>, rest: seq<Byte>, tail: seq<Byte>, start: seq<Byte>)
    requires Flat(records) + rest == start && record + tail == rest
    ensures Flat(records + [record]) + tail == start
  {
    FlatAppend(records, record);
    hide Flat;
    assert Flat(records) + record + tail == Flat(records) + (record + tail);
  }

  /** After reading some records of an encoding, the next written record comes next. */
  lemma NextRecord(read: seq<seq<Byte>>, written: seq<seq<Byte>>, n: nat, rest: seq<Byte>, start: seq<Byte>)
    requires Uniform(read, n) && Uniform(written, n) && |read| < |written|
    requires Flat(read) + rest == start && Flat(written) <= start
    ensures read == written[..|read|] && written[|read|] <= rest
  {
    ReadRecordsArePrefix(read, written, n, rest, start);
    hide Flat;
    assert written[..|read| + 1] == read + [written[|read|]];
    FlatPrefix(written, |read| + 1);
    FlatAppend(read, written[|read|]);
    PrefixTail(Flat(read), written[|read|], rest);
  }

  /** Both artifact headers have eight fields. */
  lemma EightFields(f: seq<seq<Byte>>)
    requires |f| == 8
    ensures |Flat(f)| == |f[0]| + |f[1]| + |f[2]| + |f[3]| + |f[4]| + |f[5]| + |f[6]| + |f[7]|
  {
    assert f == f[..7] + [f[7]] && f[..7] == f[..6] + [f[6]] && f[..6] == f[..5] + [f[5]];
    assert f[..5] == f[..4] + [f[4]] && f[..4] == f[..3] + [f[3]] && f[..3] == f[..2] + [f[2]];
    assert f[..2] == f[..1] + [f[1]] && f[..1] == [] + [f[0]];
    FlatAppend([], f[0]);
    FlatAppend(f[..1], f[1]);
    FlatAppend(f[..2], f[2]);
    FlatAppend(f[..3], f[3]);
    FlatAppend(f[..4], f[4]);
    FlatAppend(f[..5], f[5]);
    FlatAppend(f[..6], f[6]);
    FlatAppend(f[..7], f[7]);
  }
}
