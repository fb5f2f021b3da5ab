/** The SigningWorker's adapter around the pool lifecycle: records with material, commands, outcomes, and the
    compare-and-swap application of one command. */
module PoolLifecycle {
  import opened Results
  import opened Bytes
  import Pool = EcdsaPool
  import opened PoolBindings

  type U64 = Pool.U64

  /** Text, as its bytes. */
  type Text = seq<Byte>

  /** The fields of a signing scope that the adapter itself reads, and the rest. */
  datatype Scope = Scope(walletId: Text, keyEpoch: Text, activationEpoch: Text, rest: Text)

  type ActiveState = Text

  /** Unbound material. */
  datatype PoolMaterial = PoolMaterial(scope: Scope, active: ActiveState, pairId: Text, bigR: Text, kShare: Text,
                                       sigmaShare: Text, createdAt: U64, expiresAt: U64)

  /** Material bound to one request. */
  datatype BoundMaterial = BoundMaterial(active: ActiveState, pairId: Text, requestDigest: Digest, signingDigest: Digest,
                                         bigR: Text, contribution: Text, kShare: Text, sigmaShare: Text,
                                         createdAt: U64, expiresAt: U64)

  datatype MaterialState =
    | AvailableMaterial(unbound: PoolMaterial)
    | ReservedMaterial(bound: BoundMaterial)
    | ConsumedMaterial
    | TombstoneMaterial

  datatype Record = Record(scope: Scope, pairId: Text, lifecycle: Pool.PoolRecord, materialState: MaterialState)

  /** Validators, digests and encodings that live outside the adapter. */
  datatype Env = Env(
    scopeValid: Scope -> bool,
    scopeDigest: Scope -> Result<Digest>,
    activationId: Scope -> Result<Text>,
    activeValid: ActiveState -> bool,
    activeMatches: (Scope, ActiveState) -> bool,
    isPoint: Text -> bool,
    isBase64Of32: Text -> bool,
    sha: Hash)

  // ---- material ----

  predicate ValidUnbound(env: Env, m: PoolMaterial) {
    && env.scopeValid(m.scope) && env.activeValid(m.active) && env.activeMatches(m.scope, m.active)
    && m.pairId != [] && env.isPoint(m.bigR) && env.isBase64Of32(m.kShare) && env.isBase64Of32(m.sigmaShare)
    && 0 < m.createdAt < m.expiresAt
  }

  predicate ValidBound(env: Env, m: BoundMaterial) {
    && env.activeValid(m.active)
    && m.pairId != [] && env.isPoint(m.bigR) && env.isBase64Of32(m.contribution)
    && env.isBase64Of32(m.kShare) && env.isBase64Of32(m.sigmaShare)
    && 0 < m.createdAt < m.expiresAt
  }

  datatype Request = Request(requestDigest: Digest, signingDigest: Digest, contribution: Text, reservedAt: U64,
                             expiresAt: U64)

  /** to_request_bound_record. */
  function Bind(env: Env, m: PoolMaterial, request: Request): Result<BoundMaterial> {
    var _ :- Check(ValidUnbound(env, m), "invalid pool material");
    var _ :- Check(request.reservedAt < m.expiresAt, "expired before binding");
    var _ :- Check(request.expiresAt <= m.expiresAt, "expires before the prepare request");
    var bound := BoundMaterial(m.active, m.pairId, request.requestDigest, request.signingDigest, m.bigR,
                               request.contribution, m.kShare, m.sigmaShare, request.reservedAt, request.expiresAt);
    var _ :- Check(ValidBound(env, bound), "invalid bound material");
    Ok(bound)
  }

  // ---- identity ----

  /** Digests that are all zero are refused. */
  function Nonzero(d: Digest): Result<Digest> {
    if forall i :: 0 <= i < 32 ==> d[i] == 0 then Err("zero binding") else Ok(d)
  }

  /** pool_key. */
  function PoolKey(env: Env, scope: Scope, pairId: Text): Result<Pool.Key> {
    var _ :- Check(env.scopeValid(scope), "invalid scope");
    var _ :- Check(pairId != [], "presignature id is empty");
    var scopeDigest :- env.scopeDigest(scope);
    var activationId :- env.activationId(scope);
    var wallet :- Nonzero(env.sha(BindingInput(WALLET, [activationId])));
    var account :- Nonzero(env.sha(BindingInput(ACCOUNT, [scope.walletId])));
    var signingScope :- Nonzero(scopeDigest);
    var pair :- Nonzero(env.sha(BindingInput(PAIR, [pairId])));
    var keyEpoch :- Nonzero(env.sha(BindingInput(KEY_EPOCH, [scope.keyEpoch])));
    var activationEpoch :- Nonzero(env.sha(BindingInput(ACTIVATION_EPOCH, [scope.activationEpoch])));
    var protocol :- Nonzero(env.sha(BindingInput(PROTOCOL, [PROTOCOL_ID])));
    Ok(Pool.Key(wallet, account, signingScope, pair, Pool.SigningWorker, keyEpoch, activationEpoch, protocol))
  }

  /** reservation_binding. */
  function ReservationBinding(env: Env, scope: Scope, pairId: Text, requestDigest: Digest): Result<Pool.Binding> {
    var scopeDigest :- env.scopeDigest(scope);
    var request :- Nonzero(env.sha(BindingInput(REQUEST, [scopeDigest, requestDigest])));
    var reservation :- Nonzero(env.sha(BindingInput(RESERVATION, [scopeDigest, pairId, requestDigest])));
    Ok(Pool.Binding(reservation, request))
  }

  /** validate_bound_material. */
  predicate Bound(env: Env, scope: Scope, binding: Pool.Binding, m: BoundMaterial) {
    && env.activeMatches(scope, m.active)
    && ReservationBinding(env, scope, m.pairId, m.requestDigest) == Ok(binding)
  }

  // ---- records ----

  predicate MaterialAgrees(env: Env, r: Record) {
    match (r.lifecycle, r.materialState)
    case (Available(_), AvailableMaterial(m)) =>
      ValidUnbound(env, m) && r.pairId == m.pairId && env.activeMatches(r.scope, m.active)
    case (Reserved(l), ReservedMaterial(m)) =>
      ValidBound(env, m) && r.pairId == m.pairId && Bound(env, r.scope, l.binding, m)
    case (Consumed(_), ConsumedMaterial) => true
    case (Tombstone(_), TombstoneMaterial) => true
    case _ => false
  }

  /** validate: identity, lifecycle and material agree. */
  predicate Valid(env: Env, r: Record) {
    && env.scopeValid(r.scope) && r.pairId != []
    && PoolKey(env, r.scope, r.pairId) == Ok(r.lifecycle.Key())
    && MaterialAgrees(env, r)
  }

  function Checked(env: Env, r: Record): (result: Result<Record>)
    ensures result.Ok? <==> Valid(env, r)
    ensures result.Ok? ==> result.value == r
  {
    if Valid(env, r) then Ok(r) else Err("invalid pool record")
  }

  function NewAvailable(env: Env, inner: Pool.Transitions, m: PoolMaterial): Result<Record> {
    var _ :- Check(ValidUnbound(env, m), "invalid pool material");
    var key :- PoolKey(env, m.scope, m.pairId);
    var scopeDigest :- env.scopeDigest(m.scope);
    var locator :- Nonzero(env.sha(BindingInput(MATERIAL, [scopeDigest, m.pairId])));
    var header :- inner.create(key, locator, m.createdAt, m.expiresAt);
    Checked(env, Record(m.scope, m.pairId, Pool.Available(header), AvailableMaterial(m)))
  }

  const LEASE_MS := 60_000

  /** The lease is a minute, cut short by the request's and the material's expiry. */
  function Lease(reservedAt: U64, requestExpiresAt: U64, materialExpiresAt: U64): Result<U64> {
    var _ :- Check(reservedAt + LEASE_MS < TWO64, "reservation lease overflowed");
    Ok(Min(Min(reservedAt + LEASE_MS, requestExpiresAt), materialExpiresAt))
  }

  function Min(a: nat, b: nat): (m: nat)
    ensures m <= a && m <= b && (m == a || m == b)
  {
    if b < a then b else a
  }

  function ReserveRecord(env: Env, inner: Pool.Transitions, r: Record, request: Request): Result<Record> {
    var _ :- Check(Valid(env, r), "invalid pool record");
    var binding :- ReservationBinding(env, r.scope, r.pairId, request.requestDigest);
    match (r.lifecycle, r.materialState)
    case (Available(header), AvailableMaterial(m)) =>
      var lease :- Lease(request.reservedAt, request.expiresAt, header.materialExpiresAt);
      var mutation :- inner.reserve(header, binding, request.reservedAt, lease);
      var _ :- Check(mutation.disposition.Retain?, "reservation changed material disposition");
      var bound :- Bind(env, m, request);
      Checked(env, r.(lifecycle := mutation.replacement, materialState := ReservedMaterial(bound)))
    case _ => Err("material is not available")
  }

  datatype ConsumeDecision = Taken(record: Record, material: BoundMaterial) | Burned(burned: Record)

  function ConsumeReserved(env: Env, inner: Pool.Transitions, r: Record, requestDigest: Digest, now: U64)
    : Result<ConsumeDecision>
  {
    var _ :- Check(Valid(env, r), "invalid pool record");
    var binding :- ReservationBinding(env, r.scope, r.pairId, requestDigest);
    match (r.lifecycle, r.materialState)
    case (Reserved(l), ReservedMaterial(m)) => (
      match inner.consume(l, binding, now)
      case Use(mutation) =>
        var _ :- Check(mutation.disposition.Take?, "consumption did not take the material");
        var record :- Checked(env, r.(lifecycle := mutation.replacement, materialState := ConsumedMaterial));
        Ok(Taken(record, m))
      case Burn(mutation) =>
        var _ :- Check(mutation.disposition.Destroy?, "burn did not destroy the material");
        var record :- Checked(env, r.(lifecycle := mutation.replacement, materialState := TombstoneMaterial));
        Ok(Burned(record))
      case Reject(error) => Err(error))
    case _ => Err("material is not reserved")
  }

  /** into_destroyed_tombstone. */
  function Entombed(env: Env, r: Record, mutation: Pool.Mutation): Result<Record> {
    var _ :- Check(mutation.disposition.Destroy?, "terminal transition did not destroy material");
    Checked(env, r.(lifecycle := mutation.replacement, materialState := TombstoneMaterial))
  }

  function DestroyRecord(env: Env, inner: Pool.Transitions, r: Record, requestDigest: Digest, reason: Pool.Reason, now: U64)
    : Result<Record>
  {
    var _ :- Check(Valid(env, r), "invalid pool record");
    match r.lifecycle
    case Reserved(l) =>
      var attempted :- ReservationBinding(env, r.scope, r.pairId, requestDigest);
      var mutation :- inner.destroy(l, if attempted == l.binding then reason else Pool.BindingRejected, now);
      Entombed(env, r, mutation)
    case _ => Err("material is not reserved")
  }

  function RecoverRecord(env: Env, inner: Pool.Transitions, r: Record, now: U64): Result<Record> {
    var _ :- Check(Valid(env, r), "invalid pool record");
    match r.lifecycle
    case Reserved(l) =>
      var mutation :- inner.recover(l, now);
      Entombed(env, r, mutation)
    case _ => Err("crash recovery requires interrupted material")
  }

  function ExpireRecord(env: Env, inner: Pool.Transitions, r: Record, now: U64): Result<Record> {
    var _ :- Check(Valid(env, r), "invalid pool record");
    match r.lifecycle
    case Available(h) =>
      var mutation :- inner.expireAvailable(h, now);
      Entombed(env, r, mutation)
    case Reserved(l) =>
      var mutation :- inner.expireReserved(l, now);
      Entombed(env, r, mutation)
    case _ => Err("terminal material cannot expire again")
  }

  function RelocateRecord(env: Env, inner: Pool.Transitions, r: Record, now: U64): Result<Record> {
    var _ :- Check(Valid(env, r), "invalid pool record");
    match r.lifecycle
    case Available(h) =>
      var mutation :- inner.relocateAvailable(h, now);
      Entombed(env, r, mutation)
    case Reserved(l) =>
      var mutation :- inner.relocateReserved(l, now);
      Entombed(env, r, mutation)
    case _ => Ok(r)
  }

  function RetireRecord(env: Env, inner: Pool.Transitions, r: Record, reason: Pool.Reason, now: U64): Result<Record> {
    var _ :- Check(Valid(env, r), "invalid pool record");
    match r.lifecycle
    case Available(h) =>
      var mutation :- inner.retireAvailable(h, reason, now);
      Entombed(env, r, mutation)
    case Reserved(l) =>
      var mutation :- inner.retireReserved(l, reason, now);
      Entombed(env, r, mutation)
    case _ => Err("terminal material cannot retire again")
  }

  // ---- commands ----

  /** The record a command is aimed at. */
  datatype Target = Target(scope: Scope, pairId: Text, expectedRevision: U64)

  datatype Command =
    | PutAvailable(material: PoolMaterial)
    | PutReserved(material: PoolMaterial, request: Request)
    | Reserve(target: Target, request: Request)
    | Consume(target: Target, requestDigest: Digest, now: U64)
    | DestroyReserved(target: Target, requestDigest: Digest, reason: Pool.Reason, now: U64)
    | RecoverInterrupted(target: Target, now: U64)
    | Expire(target: Target, now: U64)
    | InvalidateForRelocation(target: Target, now: U64)
    | Retire(target: Target, reason: Pool.Reason, now: U64)

  predicate ValidTarget(env: Env, t: Target) { env.scopeValid(t.scope) && t.pairId != [] }

  /** The command's own fields. */
  predicate ValidCommand(env: Env, inner: Pool.Transitions, c: Command) {
    match c
    case PutAvailable(m) => ValidUnbound(env, m)
    case PutReserved(m, request) => Admit(env, inner, m, request).Ok?
    case Reserve(t, request) => ValidTarget(env, t) && 0 < request.reservedAt < request.expiresAt
    case Retire(t, reason, now) => ValidTarget(env, t) && Pool.Retires(reason) && now > 0
    case _ => ValidTarget(env, c.target) && c.now > 0
  }

  function Admit(env: Env, inner: Pool.Transitions, m: PoolMaterial, request: Request): Result<Record> {
    var record :- NewAvailable(env, inner, m);
    ReserveRecord(env, inner, record, request)
  }

  datatype Outcome =
    | IsAvailable(record: Record, stored: bool)
    | IsReserved(record: Record)
    | IsConsumed(record: Record, material: BoundMaterial)
    | IsBurned(record: Record)
    | IsPreserved(record: Record)
    | IsFinished(record: Record)

  /** The outcome's own validate: the record is valid and its lifecycle is the outcome's. */
  predicate ValidOutcome(env: Env, o: Outcome) {
    && Valid(env, o.record)
    && match o
       case IsAvailable(r, _) => r.lifecycle.Available?
       case IsReserved(r) => r.lifecycle.Reserved?
       case IsConsumed(r, m) =>
         && r.lifecycle.Consumed? && ValidBound(env, m) && r.pairId == m.pairId
         && Bound(env, r.scope, r.lifecycle.consumed.binding, m)
       case IsBurned(r) => r.lifecycle.Tombstone?
       case IsFinished(r) => r.lifecycle.Tombstone?
       case IsPreserved(r) => r.lifecycle.Terminal()
  }

  /** validate_command_identity. */
  predicate Aimed(env: Env, r: Record, t: Target) {
    && Valid(env, r) && env.scopeValid(t.scope)
    && r.scope == t.scope && r.pairId == t.pairId
    && r.lifecycle.Revision() == t.expectedRevision
  }

  /** The command repeats the reservation the record already holds; the contribution is not compared. */
  predicate RepeatsReservation(r: Record, t: Target, request: Request) {
    && r.materialState.ReservedMaterial?
    && r.scope == t.scope && r.pairId == t.pairId
    && t.expectedRevision + 1 == r.lifecycle.Revision()
    && r.materialState.bound.requestDigest == request.requestDigest
    && r.materialState.bound.signingDigest == request.signingDigest
    && r.materialState.bound.expiresAt == request.expiresAt
  }

  /** The command repeats the relocation that entombed the record. */
  predicate RepeatsRelocation(r: Record, t: Target, now: U64) {
    && r.lifecycle.Tombstone?
    && r.lifecycle.tombstone.reason == Pool.WalletRelocated
    && r.lifecycle.tombstone.terminalAt == now
    && t.expectedRevision + 1 == r.lifecycle.tombstone.revision
  }

  /** apply_cloudflare_signing_worker_ecdsa_pool_command_v1. */
  function Apply(env: Env, inner: Pool.Transitions, current: Option<Record>, c: Command): Result<Outcome> {
    var _ :- Check(ValidCommand(env, inner, c), "invalid command");
    if c.PutAvailable? then
      var admitted :- NewAvailable(env, inner, c.material);
      (match current
       case None => Ok(IsAvailable(admitted, true))
       case Some(existing) => if existing == admitted then Ok(IsAvailable(existing, false)) else Err("already persisted"))
    else if c.PutReserved? then
      var _ :- Check(current.None?, "already persisted");
      var record :- Admit(env, inner, c.material, c.request);
      Ok(IsReserved(record))
    else
      match current
      case None => Err("record is missing")
      case Some(r) => ApplyTo(env, inner, r, c)
  }

  /** The commands that need a record. */
  function ApplyTo(env: Env, inner: Pool.Transitions, r: Record, c: Command): Result<Outcome>
    requires !c.PutAvailable? && !c.PutReserved?
  {
    match c
    case Reserve(t, request) =>
      if RepeatsReservation(r, t, request) then
        var same :- Checked(env, r);
        Ok(IsReserved(same))
      else
        var _ :- Check(Aimed(env, r, t), "identity or revision mismatch");
        var record :- ReserveRecord(env, inner, r, request);
        Ok(IsReserved(record))
    case InvalidateForRelocation(t, now) =>
      var retry := RepeatsRelocation(r, t, now);
      var revision := if retry then r.lifecycle.Revision() else t.expectedRevision;
      var _ :- Check(Aimed(env, r, t.(expectedRevision := revision)), "identity or revision mismatch");
      if r.lifecycle.Terminal() then
        Ok(if retry then IsFinished(r) else IsPreserved(r))
      else
        var record :- RelocateRecord(env, inner, r, now);
        Ok(IsFinished(record))
    case Consume(t, requestDigest, now) =>
      var _ :- Check(Aimed(env, r, t), "identity or revision mismatch");
      var decision :- ConsumeReserved(env, inner, r, requestDigest, now);
      Ok(match decision case Taken(record, material) => IsConsumed(record, material) case Burned(record) => IsBurned(record))
    case DestroyReserved(t, requestDigest, reason, now) =>
      var _ :- Check(Aimed(env, r, t), "identity or revision mismatch");
      var record :- DestroyRecord(env, inner, r, requestDigest, reason, now);
      Ok(IsFinished(record))
    case RecoverInterrupted(t, now) =>
      var _ :- Check(Aimed(env, r, t), "identity or revision mismatch");
      var record :- RecoverRecord(env, inner, r, now);
      Ok(IsFinished(record))
    case Expire(t, now) =>
      var _ :- Check(Aimed(env, r, t), "identity or revision mismatch");
      var record :- ExpireRecord(env, inner, r, now);
      Ok(IsFinished(record))
    case Retire(t, reason, now) =>
      var _ :- Check(Aimed(env, r, t), "identity or revision mismatch");
      var record :- RetireRecord(env, inner, r, reason, now);
      Ok(IsFinished(record))
  }
}
