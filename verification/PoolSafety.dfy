/** What the pool guarantees over whole runs, whatever the lifecycle crate answers at each step. */
module PoolSafety {
  import opened Results
  import opened Bytes
  import Pool = EcdsaPool
  import opened PoolLifecycle

  // ---- one step ----

  /** The ways a stored record may change, and the outcomes that announce the change. */
  predicate Legal(before: Option<Record>, o: Outcome) {
    match o
    case IsAvailable(r, stored) =>
      if stored then before.None? && r.materialState.AvailableMaterial?
      else before == Some(r) && r.materialState.AvailableMaterial?
    case IsReserved(r) =>
      && r.materialState.ReservedMaterial?
      && (before == Some(r) || before.None? || FromAvailable(before.value, r))
    case IsConsumed(r, material) =>
      && before.Some? && before.value.materialState == ReservedMaterial(material)
      && r.materialState.ConsumedMaterial? && SameIdentity(before.value, r)
    case IsBurned(r) =>
      && before.Some? && before.value.materialState.ReservedMaterial?
      && r.materialState.TombstoneMaterial? && SameIdentity(before.value, r)
    case IsPreserved(r) => before == Some(r) && Spent(r)
    case IsFinished(r) =>
      && r.materialState.TombstoneMaterial?
      && before.Some? && (before.value == r || (!Spent(before.value) && SameIdentity(before.value, r)))
  }

  predicate SameIdentity(a: Record, b: Record) { a.scope == b.scope && a.pairId == b.pairId }

  /** No material is left. */
  predicate Spent(r: Record) { r.materialState.ConsumedMaterial? || r.materialState.TombstoneMaterial? }

  /** A reservation binds the very shares that were available. */
  predicate FromAvailable(a: Record, r: Record) {
    && SameIdentity(a, r) && a.materialState.AvailableMaterial? && r.materialState.ReservedMaterial?
    && Carries(a.materialState.unbound, r.materialState.bound)
  }

  predicate Carries(m: PoolMaterial, b: BoundMaterial) {
    b.active == m.active && b.pairId == m.pairId && b.bigR == m.bigR && b.kShare == m.kShare && b.sigmaShare == m.sigmaShare
  }

  lemma ReserveIsLegal(env: Env, inner: Pool.Transitions, r: Record, request: Request)
    requires ReserveRecord(env, inner, r, request).Ok?
    ensures var r' := ReserveRecord(env, inner, r, request).value;
            Valid(env, r') && r'.lifecycle.Reserved? && FromAvailable(r, r')
  {
    hide ReservationBinding, PoolKey, ValidBound, ValidUnbound, Lease;
  }

  lemma ConsumeIsLegal(env: Env, inner: Pool.Transitions, r: Record, requestDigest: Digest, now: U64)
    requires ConsumeReserved(env, inner, r, requestDigest, now).Ok?
    ensures match ConsumeReserved(env, inner, r, requestDigest, now).value
            case Taken(r', m) =>
              && Valid(env, r') && SameIdentity(r, r')
              && r.materialState == ReservedMaterial(m) && r'.materialState.ConsumedMaterial?
            case Burned(r') =>
              && Valid(env, r') && SameIdentity(r, r')
              && r.materialState.ReservedMaterial? && r'.materialState.TombstoneMaterial?
  {
    hide ReservationBinding, PoolKey, ValidBound, ValidUnbound;
  }

  predicate Destroys(env: Env, r: Record, result: Result<Record>) {
    result.Ok? ==>
      && Valid(env, result.value) && SameIdentity(r, result.value) && !Spent(r)
      && result.value.materialState.TombstoneMaterial? && result.value.lifecycle.Tombstone?
  }

  lemma EntombingIsLegal(env: Env, r: Record, mutation: Result<Pool.Mutation>)
    requires Valid(env, r) && !r.lifecycle.Terminal()
    ensures mutation.Ok? ==> Destroys(env, r, Entombed(env, r, mutation.value))
  {
    hide ReservationBinding, PoolKey, ValidBound, ValidUnbound;
  }

  /** Destroying a reservation leaves a valid tombstone of the same identity. */
  lemma DestructionIsLegal(env: Env, inner: Pool.Transitions, r: Record, d: Digest, reason: Pool.Reason, now: U64)
    requires Valid(env, r)
    ensures Destroys(env, r, DestroyRecord(env, inner, r, d, reason, now))
    ensures Destroys(env, r, RecoverRecord(env, inner, r, now))
  {
    hide ReservationBinding, Entombed, Valid, MaterialAgrees;
    match r.lifecycle
    case Reserved(l) =>
      EntombingIsLegal(env, r, inner.destroy(l, reason, now));
      EntombingIsLegal(env, r, inner.destroy(l, Pool.BindingRejected, now));
      EntombingIsLegal(env, r, inner.recover(l, now));
    case _ =>
  }

  /** So does removing available or reserved material. */
  lemma RemovalIsLegal(env: Env, inner: Pool.Transitions, r: Record, reason: Pool.Reason, now: U64)
    requires Valid(env, r)
    ensures Destroys(env, r, ExpireRecord(env, inner, r, now))
    ensures Destroys(env, r, RetireRecord(env, inner, r, reason, now))
    ensures !r.lifecycle.Terminal() ==> Destroys(env, r, RelocateRecord(env, inner, r, now))
  {
    hide ReservationBinding, Entombed, Valid, MaterialAgrees;
    match r.lifecycle
    case Available(h) =>
      EntombingIsLegal(env, r, inner.expireAvailable(h, now));
      EntombingIsLegal(env, r, inner.retireAvailable(h, reason, now));
      EntombingIsLegal(env, r, inner.relocateAvailable(h, now));
    case Reserved(l) =>
      EntombingIsLegal(env, r, inner.expireReserved(l, now));
      EntombingIsLegal(env, r, inner.retireReserved(l, reason, now));
      EntombingIsLegal(env, r, inner.relocateReserved(l, now));
    case _ =>
  }

  /** Whatever the crate answers: every outcome carries a valid record and is a legal change of the stored record. */
  lemma ApplyIsLegal(env: Env, inner: Pool.Transitions, current: Option<Record>, c: Command)
    requires current.Some? ==> Valid(env, current.value)
    requires Apply(env, inner, current, c).Ok?
    ensures Legal(current, Apply(env, inner, current, c).value)
    ensures Valid(env, Apply(env, inner, current, c).value.record)
  {
    hide ReservationBinding, PoolKey, ValidBound, ValidUnbound, ReserveRecord, ConsumeReserved, DestroyRecord, RecoverRecord,
         ExpireRecord, RetireRecord, RelocateRecord, NewAvailable;
    match c
    case PutAvailable(m) => NewAvailableIsValid(env, inner, m);
    case PutReserved(m, request) =>
      NewAvailableIsValid(env, inner, m);
      ReserveIsLegal(env, inner, NewAvailable(env, inner, m).value, request);
    case Reserve(t, request) =>
      if !RepeatsReservation(current.value, t, request) { ReserveIsLegal(env, inner, current.value, request); }
    case Consume(t, d, now) => ConsumeIsLegal(env, inner, current.value, d, now);
    case DestroyReserved(t, d, reason, now) => DestructionIsLegal(env, inner, current.value, d, reason, now);
    case RecoverInterrupted(t, now) => DestructionIsLegal(env, inner, current.value, ZERO, Pool.Rejected, now);
    case Expire(t, now) => RemovalIsLegal(env, inner, current.value, Pool.Rejected, now);
    case InvalidateForRelocation(t, now) => RemovalIsLegal(env, inner, current.value, Pool.Rejected, now);
    case Retire(t, reason, now) => RemovalIsLegal(env, inner, current.value, reason, now);
  }

  const ZERO: Digest := seq(32, _ => 0)

  lemma NewAvailableIsValid(env: Env, inner: Pool.Transitions, m: PoolMaterial)
    ensures var r := NewAvailable(env, inner, m);
            r.Ok? ==> Valid(env, r.value) && r.value.materialState == AvailableMaterial(m)
  {
    hide PoolKey, ValidUnbound;
  }

  /** Asked to consume the reservation `r`, the crate lets it be used but puts another binding into the record. */
  predicate Rebinds(env: Env, inner: Pool.Transitions, r: Record, requestDigest: Digest, now: U64) {
    && r.lifecycle.Reserved?
    && var attempted := ReservationBinding(env, r.scope, r.pairId, requestDigest);
       && attempted.Ok?
       && var answer := inner.consume(r.lifecycle.reserved, attempted.value, now);
          && answer.Use? && answer.use.replacement.Consumed?
          && answer.use.replacement.consumed.binding != r.lifecycle.reserved.binding
  }

  lemma TakenUnlessRebound(env: Env, inner: Pool.Transitions, r: Record, requestDigest: Digest, now: U64)
    requires ConsumeReserved(env, inner, r, requestDigest, now).Ok?
    ensures match ConsumeReserved(env, inner, r, requestDigest, now).value
            case Taken(r', m) =>
              && ValidBound(env, m) && r'.pairId == m.pairId && r'.lifecycle.Consumed?
              && (Bound(env, r'.scope, r'.lifecycle.consumed.binding, m) <==> !Rebinds(env, inner, r, requestDigest, now))
            case Burned(r') => r'.lifecycle.Tombstone? && !Rebinds(env, inner, r, requestDigest, now)
  {
    hide ReservationBinding, PoolKey, ValidBound, ValidUnbound;
  }

  /** Whatever the crate answers, an outcome fails its own validation exactly when the command consumes a reservation and
      the crate rebinds it. */
  lemma OnlyAChangedBindingIsInvalid(env: Env, inner: Pool.Transitions, current: Option<Record>, c: Command)
    requires current.Some? ==> Valid(env, current.value)
    requires Apply(env, inner, current, c).Ok?
    ensures c.Consume? ==> current.Some?
    ensures ValidOutcome(env, Apply(env, inner, current, c).value)
            <==> !(c.Consume? && Rebinds(env, inner, current.value, c.requestDigest, c.now))
  {
    hide ReservationBinding, PoolKey, ValidBound, ValidUnbound, ConsumeReserved, Rebinds, Valid, Bound;
    ApplyIsLegal(env, inner, current, c);
    if c.Consume? {
      TakenUnlessRebound(env, inner, current.value, c.requestDigest, c.now);
    } else {
      OtherOutcomesAreValid(env, inner, current, c);
    }
  }

  lemma OtherOutcomesAreValid(env: Env, inner: Pool.Transitions, current: Option<Record>, c: Command)
    requires current.Some? ==> Valid(env, current.value)
    requires Apply(env, inner, current, c).Ok? && !c.Consume?
    ensures ValidOutcome(env, Apply(env, inner, current, c).value)
  {
    ApplyIsLegal(env, inner, current, c);
    hide ReservationBinding, PoolKey, ValidBound, ValidUnbound, Apply, Bound;
    OnlyConsumeTakes(env, inner, current, c);
  }

  lemma OnlyConsumeTakes(env: Env, inner: Pool.Transitions, current: Option<Record>, c: Command)
    requires Apply(env, inner, current, c).Ok?
    ensures Apply(env, inner, current, c).value.IsConsumed? ==> c.Consume?
  {
    hide ValidCommand, Aimed, NewAvailable, Admit, Valid, ReserveRecord, RelocateRecord, DestroyRecord, RecoverRecord,
         ExpireRecord, RetireRecord, ConsumeReserved, RepeatsReservation, RepeatsRelocation;
  }

  /** The shipped crate, except that the binding of a consumed record is another one. */
  function Rebinding(): Pool.Transitions { Pool.Crate().(consume := ConsumeAndRebind) }

  function ConsumeAndRebind(l: Pool.ReservedRecord, binding: Pool.Binding, now: U64): Pool.Decision {
    match Pool.Consume(l, binding, now)
    case Use(m) =>
      if !m.replacement.Consumed? then Pool.Use(m)
      else
        var was := l.binding.reservation;
        var other := l.binding.(reservation := was[0 := if was[0] == 0 then 1 else 0]);
        Pool.Use(m.(replacement := Pool.Consumed(m.replacement.consumed.(binding := other))))
    case decision => decision
  }

  /** Such a crate exists: wherever the shipped one lets a reservation be used, this one does, with an outcome that its
      own validation refuses. */
  lemma ARebindingCrateIsCaught(env: Env, r: Record, t: Target, d: Digest, now: U64)
    requires Valid(env, r) && Apply(env, Pool.Crate(), Some(r), Consume(t, d, now)).Ok?
    requires Apply(env, Pool.Crate(), Some(r), Consume(t, d, now)).value.IsConsumed?
    ensures var answer := Apply(env, Rebinding(), Some(r), Consume(t, d, now));
            answer.Ok? && answer.value.IsConsumed? && !ValidOutcome(env, answer.value)
  {
    hide ReservationBinding, PoolKey, ValidBound, ValidUnbound, ValidOutcome;
    RebindingTakes(env, r, d, now);
    OnlyAChangedBindingIsInvalid(env, Rebinding(), Some(r), Consume(t, d, now));
  }

  lemma RebindingTakes(env: Env, r: Record, d: Digest, now: U64)
    requires ConsumeReserved(env, Pool.Crate(), r, d, now).Ok? && ConsumeReserved(env, Pool.Crate(), r, d, now).value.Taken?
    ensures ConsumeReserved(env, Rebinding(), r, d, now).Ok? && ConsumeReserved(env, Rebinding(), r, d, now).value.Taken?
    ensures Rebinds(env, Rebinding(), r, d, now)
  {
    hide ReservationBinding, PoolKey, ValidBound, ValidUnbound;
  }

  /** Compare and swap: whatever the crate answers, a command that changes a record was aimed at that record's
      identity and current revision. */
  lemma ChangesNeedTheCurrentRevision(env: Env, inner: Pool.Transitions, r: Record, c: Command)
    requires Apply(env, inner, Some(r), c).Ok? && Apply(env, inner, Some(r), c).value.record != r
    ensures !c.PutAvailable? && !c.PutReserved? && Aimed(env, r, c.target)
  {
    hide Valid, ValidCommand, ReserveRecord, ConsumeReserved, DestroyRecord, RecoverRecord, ExpireRecord, RetireRecord,
         RelocateRecord, NewAvailable, Aimed;
  }

  // ---- runs ----

  /** A command, and the crate that happens to answer it: it may answer differently every time. */
  datatype Event = Event(inner: Pool.Transitions, command: Command)

  /** The stored record before event `n`, starting from an empty store. */
  function StoreAt(env: Env, events: seq<Event>, n: nat): Option<Record>
    requires n <= |events|
    decreases n, 0
  {
    if n == 0 then None
    else
      match OutcomeAt(env, events, n - 1)
      case Ok(o) => Some(o.record)
      case Err(_) => StoreAt(env, events, n - 1)
  }

  /** What event `n` answers. */
  function OutcomeAt(env: Env, events: seq<Event>, n: nat): Result<Outcome>
    requires n < |events|
    decreases n, 1
  {
    Apply(env, events[n].inner, StoreAt(env, events, n), events[n].command)
  }

  predicate ReservedAt(env: Env, events: seq<Event>, i: nat, r: Record)
    requires i < |events|
  {
    OutcomeAt(env, events, i) == Ok(IsReserved(r))
  }

  predicate ConsumedAt(env: Env, events: seq<Event>, i: nat, m: BoundMaterial)
    requires i < |events|
  {
    OutcomeAt(env, events, i).Ok? && OutcomeAt(env, events, i).value.IsConsumed? && OutcomeAt(env, events, i).value.material == m
  }

  /** Every record the pool persists passes validate. */
  lemma {:induction false} StoredRecordsAreValid(env: Env, events: seq<Event>, n: nat)
    requires n <= |events| && StoreAt(env, events, n).Some?
    ensures Valid(env, StoreAt(env, events, n).value)
  {
    hide Valid, Apply, Legal;
    if n > 0 {
      if StoreAt(env, events, n - 1).Some? { StoredRecordsAreValid(env, events, n - 1); }
      if OutcomeAt(env, events, n - 1).Ok? {
        ApplyIsLegal(env, events[n - 1].inner, StoreAt(env, events, n - 1), events[n - 1].command);
      }
    }
  }

  lemma StepsAreLegal(env: Env, events: seq<Event>, n: nat)
    requires n < |events| && OutcomeAt(env, events, n).Ok?
    ensures Legal(StoreAt(env, events, n), OutcomeAt(env, events, n).value)
    ensures StoreAt(env, events, n + 1) == Some(OutcomeAt(env, events, n).value.record)
  {
    hide Valid, Apply, Legal;
    if StoreAt(env, events, n).Some? { StoredRecordsAreValid(env, events, n); }
    ApplyIsLegal(env, events[n].inner, StoreAt(env, events, n), events[n].command);
  }

  /** Records without material are never left. */
  lemma {:induction false} SpentRecordsStay(env: Env, events: seq<Event>, i: nat, j: nat)
    requires i <= j <= |events| && StoreAt(env, events, i).Some? && Spent(StoreAt(env, events, i).value)
    ensures StoreAt(env, events, j) == StoreAt(env, events, i)
    decreases j
  {
    hide Apply, OutcomeAt;
    if i < j {
      SpentRecordsStay(env, events, i, j - 1);
      if OutcomeAt(env, events, j - 1).Ok? { StepsAreLegal(env, events, j - 1); }
    }
  }

  /** A reservation stays as it is until it is consumed or destroyed. */
  lemma {:induction false} ReservationsStay(env: Env, events: seq<Event>, i: nat, j: nat, r: Record)
    requires i <= j <= |events| && StoreAt(env, events, i) == Some(r) && r.materialState.ReservedMaterial?
    ensures StoreAt(env, events, j).Some?
    ensures StoreAt(env, events, j) == Some(r) || Spent(StoreAt(env, events, j).value)
    decreases j
  {
    hide Apply, OutcomeAt;
    if i < j {
      ReservationsStay(env, events, i, j - 1, r);
      if OutcomeAt(env, events, j - 1).Ok? { StepsAreLegal(env, events, j - 1); }
    }
  }

  /** Once a record exists, its scope and pair id never change. */
  lemma {:induction false} IdentityIsFixed(env: Env, events: seq<Event>, i: nat, j: nat)
    requires i <= j <= |events| && StoreAt(env, events, i).Some?
    ensures StoreAt(env, events, j).Some? && SameIdentity(StoreAt(env, events, i).value, StoreAt(env, events, j).value)
    decreases j
  {
    hide Apply, OutcomeAt;
    if i < j {
      IdentityIsFixed(env, events, i, j - 1);
      if OutcomeAt(env, events, j - 1).Ok? { StepsAreLegal(env, events, j - 1); }
    }
  }

  /** All Reserved answers of a run carry one and the same record. */
  lemma AllReservationsAgree(env: Env, events: seq<Event>, i: nat, j: nat, r: Record, r': Record)
    requires i < |events| && j < |events| && ReservedAt(env, events, i, r) && ReservedAt(env, events, j, r')
    ensures r == r'
  {
    hide Apply, OutcomeAt, StoreAt;
    if i > j {
      AllReservationsAgree(env, events, j, i, r', r);
    } else if i < j {
      StepsAreLegal(env, events, i);
      StepsAreLegal(env, events, j);
      ReservationsStay(env, events, i + 1, j, r);
    }
  }

  /** A run answers Consumed at most once. */
  lemma AtMostOneConsumption(env: Env, events: seq<Event>, i: nat, j: nat, m: BoundMaterial, m': BoundMaterial)
    requires i < |events| && j < |events| && ConsumedAt(env, events, i, m) && ConsumedAt(env, events, j, m')
    ensures i == j
  {
    hide Apply, OutcomeAt, StoreAt;
    if i > j {
      AtMostOneConsumption(env, events, j, i, m', m);
    } else if i < j {
      StepsAreLegal(env, events, i);
      StepsAreLegal(env, events, j);
      SpentRecordsStay(env, events, i + 1, j);
    }
  }

  /** Reserved state is always announced by a Reserved answer. */
  lemma {:induction false} ReservationWasAnswered(env: Env, events: seq<Event>, n: nat) returns (i: nat)
    requires n <= |events| && StoreAt(env, events, n).Some? && StoreAt(env, events, n).value.materialState.ReservedMaterial?
    ensures i < n && ReservedAt(env, events, i, StoreAt(env, events, n).value)
  {
    hide Apply, OutcomeAt;
    i := n - 1;
    if OutcomeAt(env, events, n - 1).Ok? {
      StepsAreLegal(env, events, n - 1);
    } else {
      i := ReservationWasAnswered(env, events, n - 1);
    }
  }

  /** Consumption returns the material that the Reserved answers announced, and no reservation follows it. */
  lemma ConsumptionReturnsTheReservation(env: Env, events: seq<Event>, j: nat, m: BoundMaterial) returns (i: nat, r: Record)
    requires j < |events| && ConsumedAt(env, events, j, m)
    ensures i < j && ReservedAt(env, events, i, r) && r.materialState == ReservedMaterial(m)
    ensures forall k, r' :: 0 <= k < |events| && ReservedAt(env, events, k, r') ==> k < j && r' == r
  {
    hide Apply, OutcomeAt, StoreAt;
    StepsAreLegal(env, events, j);
    i := ReservationWasAnswered(env, events, j);
    r := StoreAt(env, events, j).value;
    forall k, r' | 0 <= k < |events| && ReservedAt(env, events, k, r') ensures k < j && r' == r {
      AllReservationsAgree(env, events, i, k, r, r');
      if k > j {
        SpentRecordsStay(env, events, j + 1, k);
        StepsAreLegal(env, events, k);
      }
    }
  }
}
