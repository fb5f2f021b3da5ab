/** The storage-independent lifecycle of one presignature half: Available, Reserved, Consumed, Tombstone,
    with a revision that every mutation advances. */
module EcdsaPool {
  import opened Results
  import opened Bytes

  type U64 = n: nat | n < TWO64

  datatype Role = Client | SigningWorker

  datatype Key = Key(wallet: Digest, account: Digest, signingScope: Digest, pairId: Digest, role: Role,
                     keyEpoch: Digest, activationEpoch: Digest, protocol: Digest)

  datatype Header = Header(key: Key, revision: U64, material: Digest, createdAt: U64, materialExpiresAt: U64)

  datatype Binding = Binding(reservation: Digest, request: Digest)

  datatype ReservedRecord = ReservedRecord(header: Header, binding: Binding, reservedAt: U64, leaseExpiresAt: U64)

  datatype ConsumedRecord = ConsumedRecord(key: Key, revision: U64, binding: Binding, createdAt: U64, reservedAt: U64,
                                           consumedAt: U64)

  datatype Reason =
    | Rejected | BindingRejected | Timeout | Cancelled | CrashRecovery | PeerAbort | PersistenceFailure
    | MaterialExpired | WalletRelocated | KeyEpochRetired | ActivationEpochRetired

  datatype Origin = Unused | Attempted(binding: Binding)

  datatype TombstoneRecord = TombstoneRecord(key: Key, revision: U64, createdAt: U64, terminalAt: U64, reason: Reason,
                                             origin: Origin)

  datatype PoolRecord =
    | Available(available: Header)
    | Reserved(reserved: ReservedRecord)
    | Consumed(consumed: ConsumedRecord)
    | Tombstone(tombstone: TombstoneRecord)
  {
    function Key(): Key {
      match this
      case Available(a) => a.key
      case Reserved(r) => r.header.key
      case Consumed(c) => c.key
      case Tombstone(t) => t.key
    }

    function Revision(): U64 {
      match this
      case Available(a) => a.revision
      case Reserved(r) => r.header.revision
      case Consumed(c) => c.revision
      case Tombstone(t) => t.revision
    }

    predicate Terminal() { Consumed? || Tombstone? }
  }

  datatype Disposition = Retain | Take(taken: Digest) | Destroy(destroyed: Digest)

  datatype Mutation = Mutation(expectedRevision: U64, replacement: PoolRecord, disposition: Disposition)

  datatype Decision = Use(use: Mutation) | Burn(burn: Mutation) | Reject(error: string)

  // ---- the transitions ----

  function Next(revision: U64): Result<U64> {
    if revision + 1 < TWO64 then Ok(revision + 1) else Err("revision exhausted")
  }

  function Create(key: Key, material: Digest, createdAt: U64, materialExpiresAt: U64): Result<Header> {
    if materialExpiresAt <= createdAt then Err("timestamps out of order")
    else Ok(Header(key, 0, material, createdAt, materialExpiresAt))
  }

  function Reserve(h: Header, binding: Binding, reservedAt: U64, leaseExpiresAt: U64): Result<Mutation> {
    if reservedAt < h.createdAt then Err("timestamps out of order")
    else if reservedAt >= h.materialExpiresAt then Err("material expired")
    else if leaseExpiresAt <= reservedAt || leaseExpiresAt > h.materialExpiresAt then Err("timestamps out of order")
    else
      var revision :- Next(h.revision);
      Ok(Mutation(h.revision, Reserved(ReservedRecord(h.(revision := revision), binding, reservedAt, leaseExpiresAt)), Retain))
  }

  function Entomb(h: Header, reason: Reason, terminalAt: U64, origin: Origin): Result<Mutation> {
    if terminalAt < h.createdAt then Err("timestamps out of order")
    else
      var revision :- Next(h.revision);
      Ok(Mutation(h.revision, Tombstone(TombstoneRecord(h.key, revision, h.createdAt, terminalAt, reason, origin)),
                  Destroy(h.material)))
  }

  function ExpireAvailable(h: Header, now: U64): Result<Mutation> {
    if now < h.materialExpiresAt then Err("too early") else Entomb(h, MaterialExpired, now, Unused)
  }

  function RelocateAvailable(h: Header, now: U64): Result<Mutation> { Entomb(h, WalletRelocated, now, Unused) }

  predicate Retires(reason: Reason) { reason == KeyEpochRetired || reason == ActivationEpochRetired }

  function RetireAvailable(h: Header, reason: Reason, now: U64): Result<Mutation> {
    if !Retires(reason) then Err("invalid terminal reason") else Entomb(h, reason, now, Unused)
  }

  /** Why an attempt to use the reservation must burn it instead, if it must. */
  function BurnReason(r: ReservedRecord, binding: Binding, now: U64): Option<Reason> {
    if binding != r.binding then Some(BindingRejected)
    else if now >= r.header.materialExpiresAt then Some(MaterialExpired)
    else if now >= r.leaseExpiresAt then Some(Timeout)
    else None
  }

  function Consume(r: ReservedRecord, binding: Binding, now: U64): Decision {
    if now < r.reservedAt then Reject("timestamps out of order")
    else
      match BurnReason(r, binding, now)
      case Some(reason) => (
        match Entomb(r.header, reason, now, Attempted(r.binding))
        case Ok(mutation) => Burn(mutation)
        case Err(error) => Reject(error))
      case None =>
        match Next(r.header.revision)
        case Err(error) => Reject(error)
        case Ok(revision) =>
          var next := ConsumedRecord(r.header.key, revision, r.binding, r.header.createdAt, r.reservedAt, now);
          Use(Mutation(r.header.revision, Consumed(next), Take(r.header.material)))
  }

  function DestroyReserved(r: ReservedRecord, reason: Reason, now: U64): Result<Mutation> {
    if now < r.reservedAt then Err("timestamps out of order") else Entomb(r.header, reason, now, Attempted(r.binding))
  }

  function Recover(r: ReservedRecord, now: U64): Result<Mutation> { DestroyReserved(r, CrashRecovery, now) }

  function ExpireReserved(r: ReservedRecord, now: U64): Result<Mutation> {
    if now >= r.header.materialExpiresAt then DestroyReserved(r, MaterialExpired, now)
    else if now >= r.leaseExpiresAt then DestroyReserved(r, Timeout, now)
    else Err("too early")
  }

  function RelocateReserved(r: ReservedRecord, now: U64): Result<Mutation> { DestroyReserved(r, WalletRelocated, now) }

  function RetireReserved(r: ReservedRecord, reason: Reason, now: U64): Result<Mutation> {
    if !Retires(reason) then Err("invalid terminal reason") else DestroyReserved(r, reason, now)
  }

  /** The transitions as the adapter calls them. The adapter's safety is proved for every value of this type. */
  datatype Transitions = Transitions(
    create: (Key, Digest, U64, U64) -> Result<Header>,
    reserve: (Header, Binding, U64, U64) -> Result<Mutation>,
    expireAvailable: (Header, U64) -> Result<Mutation>,
    relocateAvailable: (Header, U64) -> Result<Mutation>,
    retireAvailable: (Header, Reason, U64) -> Result<Mutation>,
    consume: (ReservedRecord, Binding, U64) -> Decision,
    destroy: (ReservedRecord, Reason, U64) -> Result<Mutation>,
    recover: (ReservedRecord, U64) -> Result<Mutation>,
    expireReserved: (ReservedRecord, U64) -> Result<Mutation>,
    relocateReserved: (ReservedRecord, U64) -> Result<Mutation>,
    retireReserved: (ReservedRecord, Reason, U64) -> Result<Mutation>)

  /** This crate. */
  function Crate(): Transitions {
    Transitions(Create, Reserve, ExpireAvailable, RelocateAvailable, RetireAvailable,
                Consume, DestroyReserved, Recover, ExpireReserved, RelocateReserved, RetireReserved)
  }
}
