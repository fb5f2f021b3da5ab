/** What pool keys and reservation bindings tell apart, where the hash separates its inputs. */
module PoolKeys {
  import opened Results
  import opened Bytes
  import opened PoolBindings
  import opened PoolLifecycle
  import opened PoolGuarantees
  import Pool = EcdsaPool

  /** The hashed parts of a key, in the order of their domains: wallet, account, pair, key epoch and activation epoch. */
  function Part(key: Pool.Key, i: nat): Digest
    requires i < 5
  {
    if i == 0 then key.wallet else if i == 1 then key.account else if i == 2 then key.pairId
    else if i == 3 then key.keyEpoch else key.activationEpoch
  }

  /** What the `i`th part stands for. */
  function Named(env: Env, scope: Scope, pairId: Text, i: nat): Text
    requires i < 5 && env.activationId(scope).Ok?
  {
    if i == 0 then env.activationId(scope).value else if i == 1 then scope.walletId else if i == 2 then pairId
    else if i == 3 then scope.keyEpoch else scope.activationEpoch
  }

  /** Whatever two keys hash is separated. */
  ghost predicate KeysSeparate(env: Env, a: Scope, pairA: Text, b: Scope, pairB: Text)
    requires env.activationId(a).Ok? && env.activationId(b).Ok?
  {
    forall i: nat, j: nat :: i < 5 && j < 5 ==>
      Separates(env.sha, BindingInput(Domains()[i], [Named(env, a, pairA, i)]),
                         BindingInput(Domains()[j], [Named(env, b, pairB, j)]))
  }

  lemma PartIsHashed(env: Env, scope: Scope, pairId: Text, i: nat)
    requires i < 5 && PoolKey(env, scope, pairId).Ok?
    ensures env.activationId(scope).Ok?
    ensures Part(PoolKey(env, scope, pairId).value, i) == env.sha(BindingInput(Domains()[i], [Named(env, scope, pairId, i)]))
  {
    hide BindingInput;
  }

  /** One digest is never two parts, and stands for one text. */
  lemma PartsAreApart(env: Env, a: Scope, pairA: Text, b: Scope, pairB: Text, i: nat, j: nat)
    requires i < 5 && j < 5 && PoolKey(env, a, pairA).Ok? && PoolKey(env, b, pairB).Ok?
    requires env.activationId(a).Ok? && env.activationId(b).Ok? && KeysSeparate(env, a, pairA, b, pairB)
    requires |Named(env, a, pairA, i)| < TWO64 && |Named(env, b, pairB, j)| < TWO64
    requires Part(PoolKey(env, a, pairA).value, i) == Part(PoolKey(env, b, pairB).value, j)
    ensures i == j && Named(env, a, pairA, i) == Named(env, b, pairB, j)
  {
    hide BindingInput, PoolKey;
    PartIsHashed(env, a, pairA, i);
    PartIsHashed(env, b, pairB, j);
    var f, g := [Named(env, a, pairA, i)], [Named(env, b, pairB, j)];
    assert Separates(env.sha, BindingInput(Domains()[i], f), BindingInput(Domains()[j], g));
    DomainsSeparate(i, j, f, g);
    BindingInputInjective(Domains()[i], f, g);
    assert f[0] == g[0];
  }

  lemma KeyNamesTheScope(env: Env, scope: Scope, pairId: Text)
    requires PoolKey(env, scope, pairId).Ok?
    ensures env.scopeDigest(scope) == Ok(PoolKey(env, scope, pairId).value.signingScope)
    ensures PoolKey(env, scope, pairId).value.role == Pool.SigningWorker
  {
    hide BindingInput;
  }

  /** Equal keys are those of one pair under one scope digest, in one activation of one wallet's key. */
  lemma KeysIdentify(env: Env, a: Scope, pairA: Text, b: Scope, pairB: Text)
    requires PoolKey(env, a, pairA).Ok? && PoolKey(env, a, pairA) == PoolKey(env, b, pairB)
    requires env.activationId(a).Ok? && env.activationId(b).Ok? && KeysSeparate(env, a, pairA, b, pairB)
    requires forall i: nat :: i < 5 ==> |Named(env, a, pairA, i)| < TWO64 && |Named(env, b, pairB, i)| < TWO64
    ensures pairA == pairB && env.scopeDigest(a) == env.scopeDigest(b) && env.activationId(a) == env.activationId(b)
    ensures a.walletId == b.walletId && a.keyEpoch == b.keyEpoch && a.activationEpoch == b.activationEpoch
  {
    hide PoolKey, KeysSeparate, BindingInput;
    KeyNamesTheScope(env, a, pairA);
    KeyNamesTheScope(env, b, pairB);
    PartsAreApart(env, a, pairA, b, pairB, 0, 0);
    PartsAreApart(env, a, pairA, b, pairB, 1, 1);
    PartsAreApart(env, a, pairA, b, pairB, 2, 2);
    PartsAreApart(env, a, pairA, b, pairB, 3, 3);
    PartsAreApart(env, a, pairA, b, pairB, 4, 4);
  }

  predicate Zero(d: Digest) { d == seq(32, _ => 0) }

  /** A key exists exactly for a valid scope and a named pair, none of whose digests is zero. */
  lemma KeyExactly(env: Env, scope: Scope, pairId: Text)
    ensures PoolKey(env, scope, pairId).Ok?
       <==> && env.scopeValid(scope) && pairId != [] && env.scopeDigest(scope).Ok? && env.activationId(scope).Ok?
            && !Zero(env.scopeDigest(scope).value) && !Zero(env.sha(BindingInput(PROTOCOL, [PROTOCOL_ID])))
            && (forall i: nat :: i < 5 ==> !Zero(env.sha(BindingInput(Domains()[i], [Named(env, scope, pairId, i)]))))
  {
    hide BindingInput, Nonzero, Zero;
    NonzeroMeans(env.sha(BindingInput(PROTOCOL, [PROTOCOL_ID])));
    if env.scopeDigest(scope).Ok? && env.activationId(scope).Ok? {
      NonzeroMeans(env.scopeDigest(scope).value);
      forall i: nat | i < 5
        ensures var d := env.sha(BindingInput(Domains()[i], [Named(env, scope, pairId, i)]));
                Nonzero(d).Ok? <==> !Zero(d)
      {
        NonzeroMeans(env.sha(BindingInput(Domains()[i], [Named(env, scope, pairId, i)])));
      }
      var d := i requires 0 <= i < 5 => env.sha(BindingInput(Domains()[i], [Named(env, scope, pairId, i)]));
      assert d(0) == env.sha(BindingInput(WALLET, [env.activationId(scope).value]));
      assert d(1) == env.sha(BindingInput(ACCOUNT, [scope.walletId]));
      assert d(2) == env.sha(BindingInput(PAIR, [pairId]));
      assert d(3) == env.sha(BindingInput(KEY_EPOCH, [scope.keyEpoch]));
      assert d(4) == env.sha(BindingInput(ACTIVATION_EPOCH, [scope.activationEpoch]));
    }
  }

  lemma NonzeroMeans(d: Digest)
    ensures Nonzero(d) == if Zero(d) then Err("zero binding") else Ok(d)
  {
    if forall i :: 0 <= i < 32 ==> d[i] == 0 { assert d == seq(32, _ => 0); }
  }

  /** Two valid records with one key are records of one pair. */
  lemma RecordsWithOneKey(env: Env, a: Record, b: Record)
    requires Valid(env, a) && Valid(env, b) && a.lifecycle.Key() == b.lifecycle.Key()
    requires env.activationId(a.scope).Ok? && env.activationId(b.scope).Ok?
    requires KeysSeparate(env, a.scope, a.pairId, b.scope, b.pairId)
    requires forall i: nat :: i < 5 ==>
               |Named(env, a.scope, a.pairId, i)| < TWO64 && |Named(env, b.scope, b.pairId, i)| < TWO64
    ensures a.pairId == b.pairId && env.scopeDigest(a.scope) == env.scopeDigest(b.scope)
    ensures a.scope.walletId == b.scope.walletId
  {
    hide PoolKey, KeysSeparate, MaterialAgrees;
    KeysIdentify(env, a.scope, a.pairId, b.scope, b.pairId);
  }

  // ---- reservations ----

  /** The request part of a binding is the request's under its scope, whichever pair serves it; the reservation part
      is of that pair too, so one request never has one reservation on two pairs. */
  lemma BindingOfTwoPairs(env: Env, scope: Scope, p: Text, q: Text, d: Digest)
    requires |p| < TWO64 && |q| < TWO64
    requires ReservationBinding(env, scope, p, d).Ok? && ReservationBinding(env, scope, q, d).Ok?
    requires var s := env.scopeDigest(scope).value;
             Separates(env.sha, BindingInput(RESERVATION, [s, p, d]), BindingInput(RESERVATION, [s, q, d]))
    ensures var a, b := ReservationBinding(env, scope, p, d).value, ReservationBinding(env, scope, q, d).value;
            a.request == b.request && (a.reservation == b.reservation <==> p == q)
  {
    hide BindingInput;
    var s := env.scopeDigest(scope).value;
    if ReservationBinding(env, scope, p, d).value.reservation == ReservationBinding(env, scope, q, d).value.reservation {
      BindingInputInjective(RESERVATION, [s, p, d], [s, q, d]);
      assert [s, p, d][1] == [s, q, d][1];
    }
  }

  /** A binding exists exactly when the scope has a digest and neither hash is zero. */
  lemma BindingExactly(env: Env, scope: Scope, pairId: Text, d: Digest)
    ensures ReservationBinding(env, scope, pairId, d).Ok?
       <==> && env.scopeDigest(scope).Ok?
            && !Zero(env.sha(BindingInput(REQUEST, [env.scopeDigest(scope).value, d])))
            && !Zero(env.sha(BindingInput(RESERVATION, [env.scopeDigest(scope).value, pairId, d])))
  {
    hide BindingInput, Nonzero, Zero;
    if env.scopeDigest(scope).Ok? {
      var s := env.scopeDigest(scope).value;
      NonzeroMeans(env.sha(BindingInput(REQUEST, [s, d])));
      NonzeroMeans(env.sha(BindingInput(RESERVATION, [s, pairId, d])));
    }
  }

  // ---- putting ----

  /** Material the pool takes: its own checks pass, its times are in order, and it has a key and a locator. */
  predicate Storable(env: Env, m: PoolMaterial) {
    && env.activeValid(m.active) && env.activeMatches(m.scope, m.active)
    && env.isPoint(m.bigR) && env.isBase64Of32(m.kShare) && env.isBase64Of32(m.sigmaShare)
    && m.createdAt >= 1 && m.expiresAt > m.createdAt && PoolKey(env, m.scope, m.pairId).Ok?
    && !Zero(env.sha(BindingInput(MATERIAL, [PoolKey(env, m.scope, m.pairId).value.signingScope, m.pairId])))
  }

  /** Into an empty slot, material is put exactly when it is storable; what is stored is that material, at revision
      zero, with its times. */
  lemma PutExactly(env: Env, m: PoolMaterial)
    ensures var answer := Apply(env, Pool.Crate(), None, PutAvailable(m));
            && (answer.Ok? <==> Storable(env, m))
            && (answer.Ok? ==>
                  && answer.value.IsAvailable? && answer.value.stored
                  && Holds(answer.value.record, m) && answer.value.record.lifecycle.available.revision == 0
                  && PoolKey(env, m.scope, m.pairId) == Ok(answer.value.record.lifecycle.available.key))
  {
    NewAvailableExactly(env, m);
    if PoolKey(env, m.scope, m.pairId).Ok? { KeyNeedsAPair(env, m.scope, m.pairId); }
    hide PoolKey, BindingInput, NewAvailable, Zero;
  }

  /** Into a slot that is taken, material is put exactly when the slot holds what putting it first would have stored; the
      answer says that nothing was stored. */
  lemma PutAgainExactly(env: Env, r: Record, m: PoolMaterial)
    ensures var first, again := Apply(env, Pool.Crate(), None, PutAvailable(m)),
                                Apply(env, Pool.Crate(), Some(r), PutAvailable(m));
            && (again.Ok? <==> first.Ok? && first.value.record == r)
            && (again.Ok? ==> again == Ok(IsAvailable(r, false)))
  {
    hide NewAvailable, ValidUnbound;
  }

  predicate Holds(r: Record, m: PoolMaterial) {
    && r.scope == m.scope && r.pairId == m.pairId && r.materialState == AvailableMaterial(m) && r.lifecycle.Available?
    && r.lifecycle.available.createdAt == m.createdAt && r.lifecycle.available.materialExpiresAt == m.expiresAt
  }

  lemma KeyNeedsAPair(env: Env, scope: Scope, pairId: Text)
    requires PoolKey(env, scope, pairId).Ok?
    ensures env.scopeValid(scope) && pairId != []
  {
    hide BindingInput;
  }

  lemma NewAvailableExactly(env: Env, m: PoolMaterial)
    ensures var made := NewAvailable(env, Pool.Crate(), m);
            && (made.Ok? <==> Storable(env, m))
            && (made.Ok? ==> Holds(made.value, m) && made.value.lifecycle.available.revision == 0
                             && PoolKey(env, m.scope, m.pairId) == Ok(made.value.lifecycle.available.key))
  {
    if PoolKey(env, m.scope, m.pairId).Ok? {
      KeyNeedsAPair(env, m.scope, m.pairId);
      KeyNamesTheScope(env, m.scope, m.pairId);
      hide PoolKey, BindingInput, Nonzero, Zero;
      NonzeroMeans(env.sha(BindingInput(MATERIAL, [PoolKey(env, m.scope, m.pairId).value.signingScope, m.pairId])));
    }
    hide PoolKey, BindingInput, Nonzero, Zero;
  }
}
