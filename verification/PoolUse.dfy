/** The pool is not only safe: admitted material can be reserved and used once. */
module PoolUse {
  import opened Results
  import opened Bytes
  import Pool = EcdsaPool
  import opened PoolLifecycle
  import opened PoolSafety
  import opened PoolGuarantees

  /** The request fits the material's life, and every digest involved is usable. */
  predicate Servable(env: Env, m: PoolMaterial, request: Request) {
    && env.isBase64Of32(request.contribution)
    && m.createdAt <= request.reservedAt < request.expiresAt <= m.expiresAt
    && request.reservedAt + LEASE_MS < TWO64
    && ReservationBinding(env, m.scope, m.pairId, request.requestDigest).Ok?
  }

  /** When the reservation made by `request` runs out. */
  function Deadline(request: Request): nat { Min(request.reservedAt + LEASE_MS, request.expiresAt) }

  lemma ReserveSucceeds(env: Env, m: PoolMaterial, request: Request)
    requires NewAvailable(env, Pool.Crate(), m).Ok? && Servable(env, m, request)
    ensures var r := ReserveRecord(env, Pool.Crate(), NewAvailable(env, Pool.Crate(), m).value, request);
            && r.Ok? && r.value.lifecycle.Reserved?
            && var l := r.value.lifecycle.reserved;
               && l.reservedAt == request.reservedAt
               && Min(l.leaseExpiresAt, l.header.materialExpiresAt) == Deadline(request)
               && Ok(l.binding) == ReservationBinding(env, m.scope, m.pairId, request.requestDigest)
  {
    hide PoolKey, ReservationBinding;
  }

  /** The three commands of one use. */
  function Uses(m: PoolMaterial, request: Request, now: U64): seq<Event> {
    [Event(Pool.Crate(), PutAvailable(m)),
     Event(Pool.Crate(), Reserve(Target(m.scope, m.pairId, 0), request)),
     Event(Pool.Crate(), Consume(Target(m.scope, m.pairId, 1), request.requestDigest, now))]
  }

  lemma PutThenReserve(env: Env, m: PoolMaterial, request: Request, now: U64)
    requires NewAvailable(env, Pool.Crate(), m).Ok? && Servable(env, m, request)
    ensures var a := NewAvailable(env, Pool.Crate(), m).value;
            var r := ReserveRecord(env, Pool.Crate(), a, request);
            && OutcomeAt(env, Uses(m, request, now), 0) == Ok(IsAvailable(a, true))
            && r.Ok? && OutcomeAt(env, Uses(m, request, now), 1) == Ok(IsReserved(r.value))
  {
    hide PoolKey, ReservationBinding, NewAvailable, ReserveRecord, MaterialAgrees, Pool.Crate, Apply;
    NewAvailableIsValid(env, Pool.Crate(), m);
    CreateFits(env, m);
    ReserveSucceeds(env, m, request);
    NewAvailableIdentity(env, m);
    var events, a := Uses(m, request, now), NewAvailable(env, Pool.Crate(), m).value;
    PutFirst(env, m);
    ReserveNext(env, a, m, request);
    assert StoreAt(env, events, 0) == None;
    assert OutcomeAt(env, events, 0) == Ok(IsAvailable(a, true));
    assert StoreAt(env, events, 1) == Some(a);
  }

  lemma PutFirst(env: Env, m: PoolMaterial)
    requires NewAvailable(env, Pool.Crate(), m).Ok?
    ensures Apply(env, Pool.Crate(), None, PutAvailable(m))
         == Ok(IsAvailable(NewAvailable(env, Pool.Crate(), m).value, true))
  {
    NewAvailableIdentity(env, m);
    hide NewAvailable, ValidUnbound, ApplyTo;
  }

  lemma ReserveNext(env: Env, a: Record, m: PoolMaterial, request: Request)
    requires Valid(env, a) && a.scope == m.scope && a.pairId == m.pairId && a.lifecycle.Available? && a.lifecycle.Revision() == 0
    requires a.materialState.AvailableMaterial? && 0 < request.reservedAt < request.expiresAt
    requires ValidUnbound(env, m) && ReserveRecord(env, Pool.Crate(), a, request).Ok?
    requires ValidCommand(env, Pool.Crate(), Reserve(Target(m.scope, m.pairId, 0), request))
    ensures Apply(env, Pool.Crate(), Some(a), Reserve(Target(m.scope, m.pairId, 0), request))
         == Ok(IsReserved(ReserveRecord(env, Pool.Crate(), a, request).value))
  {
    hide PoolKey, ReservationBinding, ReserveRecord, MaterialAgrees, Pool.Crate, ValidCommand;
  }

  lemma NewAvailableIdentity(env: Env, m: PoolMaterial)
    requires NewAvailable(env, Pool.Crate(), m).Ok?
    ensures var a := NewAvailable(env, Pool.Crate(), m).value;
            a.scope == m.scope && a.pairId == m.pairId && a.lifecycle.Available? && ValidUnbound(env, m)
  {
    hide PoolKey;
  }

  /** Material that can be admitted can be used: put, reserved and, until the reservation runs out, consumed by
      the reserving request, which receives the admitted shares. */
  lemma AdmittedMaterialCanBeUsed(env: Env, m: PoolMaterial, request: Request, now: U64)
    requires NewAvailable(env, Pool.Crate(), m).Ok? && Servable(env, m, request)
    requires request.reservedAt <= now < Deadline(request)
    ensures var used := OutcomeAt(env, Uses(m, request, now), 2);
            && used.Ok? && used.value.IsConsumed? && Carries(m, used.value.material)
            && used.value.material.requestDigest == request.requestDigest
  {
    PutThenReserve(env, m, request, now);
    ReserveSucceeds(env, m, request);
    NewAvailableIdentity(env, m);
    NewAvailableIsValid(env, Pool.Crate(), m);
    CreateFits(env, m);
    var a := NewAvailable(env, Pool.Crate(), m).value;
    ReserveIsLegal(env, Pool.Crate(), a, request);
    ReserveAdvances(env, a, request);
    ReserveCopiesTheRequest(env, Pool.Crate(), a, request);
    var r := ReserveRecord(env, Pool.Crate(), a, request).value;
    assert r.lifecycle.Revision() == 1;
    ConsumeAfter(env, m, request, now, r);
  }

  lemma ConsumeAfter(env: Env, m: PoolMaterial, request: Request, now: U64, r: Record)
    requires OutcomeAt(env, Uses(m, request, now), 1) == Ok(IsReserved(r))
    requires Valid(env, r) && r.scope == m.scope && r.pairId == m.pairId && r.lifecycle.Reserved? && r.lifecycle.Revision() == 1
    requires Fits(r.lifecycle) && r.materialState.ReservedMaterial?
    requires Ok(r.lifecycle.reserved.binding) == ReservationBinding(env, m.scope, m.pairId, request.requestDigest)
    requires now > 0 && Usable(r.lifecycle.reserved, now)
    ensures var used := OutcomeAt(env, Uses(m, request, now), 2);
            used.Ok? && used.value.IsConsumed? && ReservedMaterial(used.value.material) == r.materialState
  {
    hide PoolKey, ReservationBinding, MaterialAgrees, Apply, Fits;
    var events := Uses(m, request, now);
    assert StoreAt(env, events, 2) == Some(r);
    ConsumeExactly(env, r, Target(m.scope, m.pairId, 1), request.requestDigest, now);
  }
}
