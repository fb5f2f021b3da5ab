/** The domain-separated digests behind pool identities: a domain string, then every field after its length. */
module PoolBindings {
  import opened Bytes

  const WALLET := Ascii("seams/ecdsa-pool/wallet/v1")
  const ACCOUNT := Ascii("seams/ecdsa-pool/account/v1")
  const PAIR := Ascii("seams/ecdsa-pool/pair/v1")
  const KEY_EPOCH := Ascii("seams/ecdsa-pool/key-epoch/v1")
  const ACTIVATION_EPOCH := Ascii("seams/ecdsa-pool/activation-epoch/v1")
  const PROTOCOL := Ascii("seams/ecdsa-pool/protocol/v1")
  const MATERIAL := Ascii("seams/ecdsa-pool/material/v1")
  const REQUEST := Ascii("seams/ecdsa-pool/request/v1")
  const RESERVATION := Ascii("seams/ecdsa-pool/reservation/v1")
  const PROTOCOL_ID := Ascii("seams/router-ab-ecdsa-presign/fixed-2of2/v1")

  /** (len as u64).to_be_bytes(). */
  function Length64(n: nat): (s: seq<Byte>)
    ensures |s| == 8
  {
    LongWord(n % TWO64)
  }

  function Field(field: seq<Byte>): seq<Byte> { Length64(|field|) + field }

  function Fields(fields: seq<seq<Byte>>): seq<Byte> {
    if fields == [] then [] else Fields(fields[..|fields| - 1]) + Field(fields[|fields| - 1])
  }

  /** Everything binding_digest feeds to the hasher. */
  function BindingInput(domain: seq<Byte>, fields: seq<seq<Byte>>): seq<Byte> { domain + Fields(fields) }

  /** binding_digest: one update for the domain, two for every field. */
  method BindingDigest(sha: Hash, domain: seq<Byte>, fields: seq<seq<Byte>>) returns (digest: Digest)
    ensures digest == sha(BindingInput(domain, fields))
  {
    var hasher := domain;
    for i := 0 to |fields|
      invariant hasher == BindingInput(domain, fields[..i])
    {
      hasher := hasher + Length64(|fields[i]|);
      hasher := hasher + fields[i];
      assert fields[..i + 1][..i] == fields[..i];
      Regroup(domain, Fields(fields[..i]), Length64(|fields[i]|), fields[i]);
    }
    assert fields[..|fields|] == fields;
    return sha(hasher);
  }

  lemma Regroup<T>(a: seq<T>, b: seq<T>, c: seq<T>, d: seq<T>)
    ensures a + b + c + d == a + (b + (c + d))
  {
  }

  // ---- what the encoding pins down ----

  ghost predicate Short(fields: seq<seq<Byte>>) {
    forall i :: 0 <= i < |fields| ==> |fields[i]| < TWO64
  }

  lemma LengthPins(m: nat, n: nat)
    requires m < TWO64 && n < TWO64 && Length64(m) == Length64(n)
    ensures m == n
  {
    hide LongWord;
    assert m % TWO64 == m && n % TWO64 == n;
    LongWordInjective(m, n);
  }

  /** The first field, seen from the front. */
  lemma {:induction false} FieldsFront(fields: seq<seq<Byte>>)
    requires fields != []
    ensures Fields(fields) == Field(fields[0]) + Fields(fields[1..])
  {
    hide Field;
    var n := |fields| - 1;
    if n == 0 {
      assert fields[..0] == [] && fields[1..] == [];
    } else {
      FieldsFront(fields[..n]);
      assert fields[..n][1..] == fields[1..][..n - 1];
      assert Field(fields[0]) + Fields(fields[1..][..n - 1]) + Field(fields[n])
          == Field(fields[0]) + (Fields(fields[1..][..n - 1]) + Field(fields[n]));
    }
  }

  lemma FirstFieldPinned(a: seq<Byte>, b: seq<Byte>, restA: seq<Byte>, restB: seq<Byte>)
    requires |a| < TWO64 && |b| < TWO64 && Field(a) + restA == Field(b) + restB
    ensures a == b && restA == restB
  {
    assert Field(a) + restA == Length64(|a|) + (a + restA) && Field(b) + restB == Length64(|b|) + (b + restB);
    SplitConcat(Length64(|a|), a + restA, Length64(|b|), b + restB);
    LengthPins(|a|, |b|);
    SplitConcat(a, restA, b, restB);
  }

  /** Length prefixes make the encoding of field lists injective, whatever their number. */
  lemma {:induction false} FieldsInjective(f: seq<seq<Byte>>, g: seq<seq<Byte>>)
    requires Short(f) && Short(g) && Fields(f) == Fields(g)
    ensures f == g
    decreases |f|
  {
    if f == [] || g == [] {
      if f != [] { FieldsFront(f); }
      if g != [] { FieldsFront(g); }
    } else {
      FieldsFront(f);
      FieldsFront(g);
      hide Fields, Field;
      FirstFieldPinned(f[0], g[0], Fields(f[1..]), Fields(g[1..]));
      FieldsInjective(f[1..], g[1..]);
      assert f == [f[0]] + f[1..] && g == [g[0]] + g[1..];
    }
  }

  /** Under one domain, equal hash inputs come from equal fields. */
  lemma BindingInputInjective(domain: seq<Byte>, f: seq<seq<Byte>>, g: seq<seq<Byte>>)
    requires Short(f) && Short(g) && BindingInput(domain, f) == BindingInput(domain, g)
    ensures f == g
  {
    SplitConcat(domain, Fields(f), domain, Fields(g));
    FieldsInjective(f, g);
  }

  // ---- the domains separate ----

  function Domains(): seq<seq<Byte>> {
    [WALLET, ACCOUNT, PAIR, KEY_EPOCH, ACTIVATION_EPOCH, PROTOCOL, MATERIAL, REQUEST, RESERVATION]
  }

  /** Characters 17, 18 and 19 already tell the domains apart. */
  function Mark(domain: seq<Byte>): seq<Byte>
    requires |domain| >= 20
  {
    [domain[17], domain[18], domain[19]]
  }

  lemma DomainLengths()
    ensures forall i :: 0 <= i < 9 ==> |Domains()[i]| >= 20
  {
  }

  const MARKS := [Ascii("wal"), Ascii("acc"), Ascii("pai"), Ascii("key"), Ascii("act"), Ascii("pro"), Ascii("mat"),
                  Ascii("req"), Ascii("res")]

  lemma DomainMark(i: nat)
    requires i < 9
    ensures |Domains()[i]| >= 20 && Mark(Domains()[i]) == MARKS[i]
  {
    DomainLengths();
  }

  lemma MarksDiffer(i: nat, j: nat)
    requires i < 9 && j < 9 && MARKS[i] == MARKS[j]
    ensures i == j
  {
    assert MARKS[i][0] == MARKS[j][0] && MARKS[i][1] == MARKS[j][1] && MARKS[i][2] == MARKS[j][2];
  }

  /** No input of one domain is an input of another. */
  lemma DomainsSeparate(i: nat, j: nat, f: seq<seq<Byte>>, g: seq<seq<Byte>>)
    requires i < 9 && j < 9 && BindingInput(Domains()[i], f) == BindingInput(Domains()[j], g)
    ensures i == j
  {
    DomainMark(i);
    DomainMark(j);
    hide Domains;
    var input := BindingInput(Domains()[i], f);
    assert forall k :: 0 <= k < 20 ==> input[k] == Domains()[i][k] && input[k] == Domains()[j][k];
    assert Mark(Domains()[i]) == Mark(Domains()[j]);
    MarksDiffer(i, j);
  }
}
