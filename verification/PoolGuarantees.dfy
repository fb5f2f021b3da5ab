/** What the pool guarantees with the lifecycle crate it ships with: revisions, retries, and the exact
    conditions for consuming. */
module PoolGuarantees {
  import opened Results
  import opened Bytes
  import Pool = EcdsaPool
  import opened PoolBindings
  import opened PoolLifecycle
  import opened PoolSafety

  // ---- revisions ----

  /** The revision that belongs to a state: one per mutation since admission. */
  predicate RevisionFits(l: Pool.PoolRecord) {
    match l
    case Available(h) => h.revision == 0
    case Reserved(r) => r.header.revision == 1
    case Consumed(c) => c.revision == 2
    case Tombstone(t) => t.revision == if t.origin.Unused? then 1 else 2
  }

  /** The clock readings of a state are in order, and the lease lies within the material's life and the minute. */
  predicate TimesFit(l: Pool.PoolRecord) {
    match l
    case Available(h) => h.createdAt < h.materialExpiresAt
    case Reserved(r) =>
      && r.header.createdAt <= r.reservedAt < r.leaseExpiresAt <= r.header.materialExpiresAt
      && r.leaseExpiresAt <= r.reservedAt + LEASE_MS
    case Consumed(c) => c.createdAt <= c.reservedAt <= c.consumedAt <= c.reservedAt + LEASE_MS
    case Tombstone(t) => t.createdAt <= t.terminalAt
  }

  predicate Fits(l: Pool.PoolRecord) { RevisionFits(l) && TimesFit(l) }

  /** Every answer either leaves the record alone or advances its revision by exactly one, and keeps the
      state's revision and times in order. */
  predicate Advances(before: Record, after: Record) {
    after == before || (after.lifecycle.Revision() == before.lifecycle.Revision() + 1 && Fits(after.lifecycle))
  }

  lemma CreateFits(env: Env, m: PoolMaterial)
    requires NewAvailable(env, Pool.Crate(), m).Ok?
    ensures Fits(NewAvailable(env, Pool.Crate(), m).value.lifecycle)
  {
    hide PoolKey, ValidUnbound, MaterialAgrees;
  }

  lemma ReserveAdvances(env: Env, r: Record, request: Request)
    requires Fits(r.lifecycle) && ReserveRecord(env, Pool.Crate(), r, request).Ok?
    ensures Advances(r, ReserveRecord(env, Pool.Crate(), r, request).value)
  {
    hide PoolKey, ReservationBinding, Bind, MaterialAgrees;
  }

  lemma ConsumeAdvances(env: Env, r: Record, d: Digest, now: U64)
    requires Fits(r.lifecycle) && ConsumeReserved(env, Pool.Crate(), r, d, now).Ok?
    ensures match ConsumeReserved(env, Pool.Crate(), r, d, now).value
            case Taken(r', _) => Advances(r, r')
            case Burned(r') => Advances(r, r')
  {
    hide PoolKey, ReservationBinding, MaterialAgrees;
  }

  predicate AdvancesIfOk(r: Record, result: Result<Record>) { result.Ok? ==> Advances(r, result.value) }

  predicate Entombs(l: Pool.PoolRecord, result: Result<Pool.Mutation>) {
    result.Ok? ==>
      var l' := result.value.replacement;
      l'.Tombstone? && l'.Revision() == l.Revision() + 1 && Fits(l')
  }

  lemma CrateEntombsAvailable(h: Pool.Header, reason: Pool.Reason, now: U64)
    requires Fits(Pool.Available(h))
    ensures Entombs(Pool.Available(h), Pool.ExpireAvailable(h, now))
    ensures Entombs(Pool.Available(h), Pool.RetireAvailable(h, reason, now))
    ensures Entombs(Pool.Available(h), Pool.RelocateAvailable(h, now))
  {
  }

  lemma CrateEntombsReserved(l: Pool.ReservedRecord, reason: Pool.Reason, now: U64)
    requires Fits(Pool.Reserved(l))
    ensures Entombs(Pool.Reserved(l), Pool.DestroyReserved(l, reason, now))
    ensures Entombs(Pool.Reserved(l), Pool.Recover(l, now))
    ensures Entombs(Pool.Reserved(l), Pool.ExpireReserved(l, now))
    ensures Entombs(Pool.Reserved(l), Pool.RetireReserved(l, reason, now))
    ensures Entombs(Pool.Reserved(l), Pool.RelocateReserved(l, now))
  {
    hide Entombs, Fits, Pool.DestroyReserved;
    DestroyEntombs(l, reason, now);
    DestroyEntombs(l, Pool.CrashRecovery, now);
    DestroyEntombs(l, Pool.MaterialExpired, now);
    DestroyEntombs(l, Pool.Timeout, now);
    DestroyEntombs(l, Pool.WalletRelocated, now);
    RefusingEntombsNothing(Pool.Reserved(l));
  }

  lemma DestroyEntombs(l: Pool.ReservedRecord, reason: Pool.Reason, now: U64)
    requires Fits(Pool.Reserved(l))
    ensures Entombs(Pool.Reserved(l), Pool.DestroyReserved(l, reason, now))
  {
  }

  lemma RefusingEntombsNothing(p: Pool.PoolRecord)
    ensures forall e: string :: Entombs(p, Err(e))
  {
  }

  lemma EntombedAdvances(env: Env, r: Record, result: Result<Pool.Mutation>)
    requires Entombs(r.lifecycle, result)
    ensures result.Ok? ==> AdvancesIfOk(r, Entombed(env, r, result.value))
  {
    hide Valid, Fits;
  }

  lemma DestructionAdvances(env: Env, r: Record, d: Digest, reason: Pool.Reason, now: U64)
    requires Fits(r.lifecycle)
    ensures AdvancesIfOk(r, DestroyRecord(env, Pool.Crate(), r, d, reason, now))
    ensures AdvancesIfOk(r, RecoverRecord(env, Pool.Crate(), r, now))
  {
    hide ReservationBinding, Valid, Fits, Entombs, Entombed, Pool.DestroyReserved, Pool.Recover;
    match r.lifecycle
    case Reserved(l) => ReservedAdvances(env, r, l, reason, now);
    case _ =>
  }

  lemma RemovalAdvances(env: Env, r: Record, reason: Pool.Reason, now: U64)
    requires Fits(r.lifecycle)
    ensures AdvancesIfOk(r, ExpireRecord(env, Pool.Crate(), r, now))
    ensures AdvancesIfOk(r, RetireRecord(env, Pool.Crate(), r, reason, now))
    ensures AdvancesIfOk(r, RelocateRecord(env, Pool.Crate(), r, now))
  {
    hide ReservationBinding, Valid, Fits, Entombs, Entombed, Pool.ExpireReserved, Pool.RetireReserved, Pool.RelocateReserved,
         Pool.ExpireAvailable, Pool.RetireAvailable, Pool.RelocateAvailable;
    match r.lifecycle
    case Available(h) =>
      AvailableAdvances(env, r, h, reason, now);
      hide AdvancesIfOk;
    case Reserved(l) =>
      ReservedAdvances(env, r, l, reason, now);
      hide AdvancesIfOk;
    case _ =>
  }

  lemma AvailableAdvances(env: Env, r: Record, h: Pool.Header, reason: Pool.Reason, now: U64)
    requires Fits(r.lifecycle) && r.lifecycle == Pool.Available(h)
    ensures Pool.ExpireAvailable(h, now).Ok? ==> AdvancesIfOk(r, Entombed(env, r, Pool.ExpireAvailable(h, now).value))
    ensures Pool.RetireAvailable(h, reason, now).Ok? ==>
              AdvancesIfOk(r, Entombed(env, r, Pool.RetireAvailable(h, reason, now).value))
    ensures Pool.RelocateAvailable(h, now).Ok? ==> AdvancesIfOk(r, Entombed(env, r, Pool.RelocateAvailable(h, now).value))
  {
    hide Valid, Fits, Entombs, Entombed, Pool.ExpireAvailable, Pool.RetireAvailable, Pool.RelocateAvailable;
    CrateEntombsAvailable(h, reason, now);
    EntombedAdvances(env, r, Pool.ExpireAvailable(h, now));
    EntombedAdvances(env, r, Pool.RetireAvailable(h, reason, now));
    EntombedAdvances(env, r, Pool.RelocateAvailable(h, now));
  }

  lemma ReservedAdvances(env: Env, r: Record, l: Pool.ReservedRecord, reason: Pool.Reason, now: U64)
    requires Fits(r.lifecycle) && r.lifecycle == Pool.Reserved(l)
    ensures forall why :: Pool.DestroyReserved(l, why, now).Ok? ==>
              AdvancesIfOk(r, Entombed(env, r, Pool.DestroyReserved(l, why, now).value))
    ensures Pool.Recover(l, now).Ok? ==> AdvancesIfOk(r, Entombed(env, r, Pool.Recover(l, now).value))
    ensures Pool.ExpireReserved(l, now).Ok? ==> AdvancesIfOk(r, Entombed(env, r, Pool.ExpireReserved(l, now).value))
    ensures Pool.RetireReserved(l, reason, now).Ok? ==>
              AdvancesIfOk(r, Entombed(env, r, Pool.RetireReserved(l, reason, now).value))
    ensures Pool.RelocateReserved(l, now).Ok? ==> AdvancesIfOk(r, Entombed(env, r, Pool.RelocateReserved(l, now).value))
  {
    hide Valid, Fits, Entombs, Entombed, Pool.DestroyReserved, Pool.Recover, Pool.ExpireReserved, Pool.RetireReserved,
         Pool.RelocateReserved;
    CrateEntombsReserved(l, reason, now);
    forall why | Pool.DestroyReserved(l, why, now).Ok?
      ensures AdvancesIfOk(r, Entombed(env, r, Pool.DestroyReserved(l, why, now).value))
    {
      CrateEntombsReserved(l, why, now);
      EntombedAdvances(env, r, Pool.DestroyReserved(l, why, now));
    }
    EntombedAdvances(env, r, Pool.Recover(l, now));
    EntombedAdvances(env, r, Pool.ExpireReserved(l, now));
    EntombedAdvances(env, r, Pool.RetireReserved(l, reason, now));
    EntombedAdvances(env, r, Pool.RelocateReserved(l, now));
  }

  lemma ApplyAdvances(env: Env, r: Record, c: Command)
    requires Fits(r.lifecycle) && Apply(env, Pool.Crate(), Some(r), c).Ok?
    ensures Advances(r, Apply(env, Pool.Crate(), Some(r), c).value.record)
  {
    hide Valid, ValidCommand, Pool.Crate, ReserveRecord, ConsumeReserved, DestroyRecord, RecoverRecord, ExpireRecord,
         RetireRecord, RelocateRecord, NewAvailable, Fits, Aimed;
    match c
    case PutAvailable(m) =>
    case PutReserved(m, request) =>
    case Reserve(t, request) =>
      if !RepeatsReservation(r, t, request) { ReserveAdvances(env, r, request); }
    case Consume(t, d, now) => ConsumeAdvances(env, r, d, now);
    case DestroyReserved(t, d, reason, now) => DestructionAdvances(env, r, d, reason, now);
    case RecoverInterrupted(t, now) => DestructionAdvances(env, r, ZERO, Pool.Rejected, now);
    case Expire(t, now) => RemovalAdvances(env, r, Pool.Rejected, now);
    case InvalidateForRelocation(t, now) => RemovalAdvances(env, r, Pool.Rejected, now);
    case Retire(t, reason, now) => RemovalAdvances(env, r, reason, now);
  }

  /** In every run, every stored record has the revision and the ordered times of its state. */
  lemma {:induction false} StoredRecordsFit(env: Env, events: seq<Event>, n: nat)
    requires n <= |events| && StoreAt(env, events, n).Some?
    requires forall i :: 0 <= i < |events| ==> events[i].inner == Pool.Crate()
    ensures Fits(StoreAt(env, events, n).value.lifecycle)
  {
    hide Apply, Fits, Pool.Crate;
    if n > 0 {
      var before, c := StoreAt(env, events, n - 1), events[n - 1].command;
      if OutcomeAt(env, events, n - 1).Ok? {
        match before {
          case None => FirstRecordFits(env, c);
          case Some(r) =>
            StoredRecordsFit(env, events, n - 1);
            ApplyAdvances(env, r, c);
        }
      } else {
        StoredRecordsFit(env, events, n - 1);
      }
    }
  }

  /** Revisions never go back, and grow whenever the record changes. */
  lemma {:induction false} RevisionsGrow(env: Env, events: seq<Event>, i: nat, j: nat)
    requires i <= j <= |events| && StoreAt(env, events, i).Some?
    requires forall k :: 0 <= k < |events| ==> events[k].inner == Pool.Crate()
    ensures StoreAt(env, events, j).Some?
    ensures StoreAt(env, events, j) == StoreAt(env, events, i)
            || StoreAt(env, events, j).value.lifecycle.Revision() > StoreAt(env, events, i).value.lifecycle.Revision()
    decreases j
  {
    hide Apply, Fits, Pool.Crate;
    if i < j {
      RevisionsGrow(env, events, i, j - 1);
      if OutcomeAt(env, events, j - 1).Ok? {
        StoredRecordsFit(env, events, j - 1);
        ApplyAdvances(env, StoreAt(env, events, j - 1).value, events[j - 1].command);
      }
    }
  }

  /** Event `i` changes an existing record. */
  predicate ChangesAt(env: Env, events: seq<Event>, i: nat)
    requires i < |events|
  {
    StoreAt(env, events, i).Some? && StoreAt(env, events, i + 1) != StoreAt(env, events, i)
  }

  /** Of the commands planned on one revision at most one ever changes the record. */
  lemma RacersCannotBothWin(env: Env, events: seq<Event>, i: nat, j: nat)
    requires i < j < |events| && ChangesAt(env, events, i) && ChangesAt(env, events, j)
    requires forall k :: 0 <= k < |events| ==> events[k].inner == Pool.Crate()
    ensures var c, d := events[i].command, events[j].command;
            && !c.PutAvailable? && !c.PutReserved? && !d.PutAvailable? && !d.PutReserved?
            && c.target.expectedRevision < d.target.expectedRevision
  {
    hide Apply, StoreAt, Valid;
    ChangeIsAimed(env, events, i);
    ChangeIsAimed(env, events, j);
    RevisionsGrow(env, events, i, i + 1);
    RevisionsGrow(env, events, i + 1, j);
  }

  lemma ChangeIsAimed(env: Env, events: seq<Event>, i: nat)
    requires i < |events| && ChangesAt(env, events, i)
    ensures var c := events[i].command;
            !c.PutAvailable? && !c.PutReserved? && Aimed(env, StoreAt(env, events, i).value, c.target)
  {
    hide Apply, Aimed;
    assert OutcomeAt(env, events, i).Ok?;
    ChangesNeedTheCurrentRevision(env, events[i].inner, StoreAt(env, events, i).value, events[i].command);
  }

  lemma FirstRecordFits(env: Env, c: Command)
    requires Apply(env, Pool.Crate(), None, c).Ok?
    ensures Fits(Apply(env, Pool.Crate(), None, c).value.record.lifecycle)
  {
    hide Pool.Crate, ReserveRecord, NewAvailable, Fits, ValidCommand;
    match c
    case PutAvailable(m) => CreateFits(env, m);
    case PutReserved(m, request) =>
      CreateFits(env, m);
      ReserveAdvances(env, NewAvailable(env, Pool.Crate(), m).value, request);
      NewAvailableIsValid(env, Pool.Crate(), m);
      ReserveIsLegal(env, Pool.Crate(), NewAvailable(env, Pool.Crate(), m).value, request);
    case _ =>
  }

  // ---- outcomes ----

  /** With this crate the outcome's own validation never refuses. */
  lemma CrateOutcomesAreValid(env: Env, current: Option<Record>, c: Command)
    requires current.Some? ==> Valid(env, current.value)
    requires Apply(env, Pool.Crate(), current, c).Ok?
    ensures ValidOutcome(env, Apply(env, Pool.Crate(), current, c).value)
  {
    hide Apply, ValidOutcome, Rebinds;
    OnlyAChangedBindingIsInvalid(env, Pool.Crate(), current, c);
    if c.Consume? { CrateKeepsBindings(env, current.value, c.requestDigest, c.now); }
  }

  lemma CrateKeepsBindings(env: Env, r: Record, d: Digest, now: U64)
    ensures !Rebinds(env, Pool.Crate(), r, d, now)
  {
    hide ReservationBinding;
  }

  // ---- retries ----

  /** A Reserve that has been answered, sent again with any contribution and any clock reading before the
      request expires, is answered with the stored record. */
  lemma ReserveRetryIsIdempotent(env: Env, r: Record, t: Target, request: Request, request': Request)
    requires Fits(r.lifecycle)
    requires Apply(env, Pool.Crate(), Some(r), Reserve(t, request)).Ok?
    requires request' == request.(contribution := request'.contribution, reservedAt := request'.reservedAt)
    requires 0 < request'.reservedAt < request'.expiresAt
    ensures var o := Apply(env, Pool.Crate(), Some(r), Reserve(t, request)).value;
            Apply(env, Pool.Crate(), Some(o.record), Reserve(t, request')) == Ok(o)
  {
    hide PoolKey, ReservationBinding, ValidUnbound, ValidBound, Pool.Crate, ReserveRecord, MaterialAgrees, Fits;
    if !RepeatsReservation(r, t, request) {
      ReserveIsLegal(env, Pool.Crate(), r, request);
      ReserveAdvances(env, r, request);
      ReserveCopiesTheRequest(env, Pool.Crate(), r, request);
    }
  }

  lemma ReserveCopiesTheRequest(env: Env, inner: Pool.Transitions, r: Record, request: Request)
    requires ReserveRecord(env, inner, r, request).Ok?
    ensures var r' := ReserveRecord(env, inner, r, request).value;
            && r'.materialState.ReservedMaterial?
            && r'.materialState.bound.requestDigest == request.requestDigest
            && r'.materialState.bound.signingDigest == request.signingDigest
            && r'.materialState.bound.contribution == request.contribution
            && r'.materialState.bound.expiresAt == request.expiresAt
  {
    hide PoolKey, ReservationBinding, ValidUnbound, ValidBound, Valid;
  }

  /** A relocation that has destroyed material, sent again, finds its tombstone and leaves it alone. */
  lemma RelocationRetryIsIdempotent(env: Env, r: Record, t: Target, now: U64)
    requires Valid(env, r) && !r.lifecycle.Terminal()
    requires Apply(env, Pool.Crate(), Some(r), InvalidateForRelocation(t, now)).Ok?
    ensures var o := Apply(env, Pool.Crate(), Some(r), InvalidateForRelocation(t, now)).value;
            && o.record.lifecycle.Tombstone? && o.record.lifecycle.tombstone.reason == Pool.WalletRelocated
            && Apply(env, Pool.Crate(), Some(o.record), InvalidateForRelocation(t, now)) == Ok(o)
  {
    RelocationEntombs(env, r, now);
    hide Valid, RelocateRecord;
    FoundAgain(env, RelocateRecord(env, Pool.Crate(), r, now).value, t, now);
  }

  /** The tombstone of a relocation answers the relocation that left it. */
  lemma FoundAgain(env: Env, r: Record, t: Target, now: U64)
    requires Valid(env, r) && r.lifecycle.Tombstone? && ValidCommand(env, Pool.Crate(), InvalidateForRelocation(t, now))
    requires r.scope == t.scope && r.pairId == t.pairId && env.scopeValid(t.scope)
    requires var s := r.lifecycle.tombstone;
             s.reason == Pool.WalletRelocated && s.terminalAt == now && s.revision == t.expectedRevision + 1
    ensures Apply(env, Pool.Crate(), Some(r), InvalidateForRelocation(t, now)) == Ok(IsFinished(r))
  {
    hide Valid, RelocateRecord;
  }

  lemma RelocationEntombs(env: Env, r: Record, now: U64)
    requires Valid(env, r) && !r.lifecycle.Terminal()
    ensures var result := RelocateRecord(env, Pool.Crate(), r, now);
            result.Ok? ==>
              && Valid(env, result.value) && SameIdentity(r, result.value)
              && result.value.lifecycle.Tombstone?
              && result.value.lifecycle.tombstone.reason == Pool.WalletRelocated
              && result.value.lifecycle.tombstone.terminalAt == now
              && result.value.lifecycle.tombstone.revision == r.lifecycle.Revision() + 1
  {
    RemovalIsLegal(env, Pool.Crate(), r, Pool.Rejected, now);
    hide Valid, RelocateRecord;
    if RelocateRecord(env, Pool.Crate(), r, now).Ok? { RelocateTellsWhy(env, r, now); }
  }

  /** PutReserved is PutAvailable followed by Reserve, whatever the crate does. */
  lemma PutReservedIsPutThenReserve(env: Env, inner: Pool.Transitions, m: PoolMaterial, request: Request)
    ensures var put := Apply(env, inner, None, PutAvailable(m));
            var direct := Apply(env, inner, None, PutReserved(m, request));
            && (put.Err? ==> direct.Err?)
            && (put.Ok? ==>
                  var r := put.value.record;
                  var reserve := Apply(env, inner, Some(r), Reserve(Target(r.scope, r.pairId, r.lifecycle.Revision()), request));
                  (direct.Ok? <==> reserve.Ok?) && (direct.Ok? ==> direct == reserve))
  {
    hide PoolKey, ReservationBinding;
    NewAvailableIsValid(env, inner, m);
    if NewAvailable(env, inner, m).Ok? {
      var r := NewAvailable(env, inner, m).value;
      if ReserveRecord(env, inner, r, request).Ok? { ReservedTimesAreOrdered(env, inner, r, request); }
    }
    hide NewAvailable, ReserveRecord, MaterialAgrees;
  }

  lemma ReservedTimesAreOrdered(env: Env, inner: Pool.Transitions, r: Record, request: Request)
    requires ReserveRecord(env, inner, r, request).Ok?
    ensures 0 < request.reservedAt < request.expiresAt
  {
    hide PoolKey, ReservationBinding, ValidUnbound, Valid;
  }

  // ---- consuming ----

  /** The reservation is usable: not before it was made, and before the lease and the material run out. */
  predicate Usable(l: Pool.ReservedRecord, now: U64) {
    l.reservedAt <= now < Min(l.leaseExpiresAt, l.header.materialExpiresAt)
  }

  /** A Consume aimed at a reservation takes the material exactly when its request is the reserving one and
      the reservation is usable; too early it is refused; otherwise it burns the material. */
  lemma ConsumeExactly(env: Env, r: Record, t: Target, d: Digest, now: U64)
    requires Aimed(env, r, t) && r.lifecycle.Reserved? && Fits(r.lifecycle)
    requires ReservationBinding(env, r.scope, r.pairId, d).Ok? && now > 0
    ensures var answer, l := Apply(env, Pool.Crate(), Some(r), Consume(t, d, now)), r.lifecycle.reserved;
            var matches := ReservationBinding(env, r.scope, r.pairId, d).value == l.binding;
            if now < l.reservedAt then answer.Err?
            else if matches && Usable(l, now) then
              answer.Ok? && answer.value.IsConsumed? && ReservedMaterial(answer.value.material) == r.materialState
            else
              && answer.Ok? && answer.value.IsBurned?
              && answer.value.record.lifecycle.tombstone.reason
                 == (if !matches then Pool.BindingRejected
                     else if now >= l.header.materialExpiresAt then Pool.MaterialExpired
                     else Pool.Timeout)
  {
    hide PoolKey, ReservationBinding, ValidUnbound, ValidBound;
    ConsumeRecordExactly(env, r, d, now);
    hide ConsumeReserved, MaterialAgrees, Fits;
  }

  lemma ConsumeRecordExactly(env: Env, r: Record, d: Digest, now: U64)
    requires Valid(env, r) && r.lifecycle.Reserved? && Fits(r.lifecycle)
    requires ReservationBinding(env, r.scope, r.pairId, d).Ok?
    ensures var answer, l := ConsumeReserved(env, Pool.Crate(), r, d, now), r.lifecycle.reserved;
            var matches := ReservationBinding(env, r.scope, r.pairId, d).value == l.binding;
            if now < l.reservedAt then answer.Err?
            else if matches && Usable(l, now) then
              answer.Ok? && answer.value.Taken? && ReservedMaterial(answer.value.material) == r.materialState
            else
              && answer.Ok? && answer.value.Burned? && answer.value.burned.lifecycle.Tombstone?
              && answer.value.burned.lifecycle.tombstone.reason
                 == (if !matches then Pool.BindingRejected
                     else if now >= l.header.materialExpiresAt then Pool.MaterialExpired
                     else Pool.Timeout)
  {
    hide PoolKey, ReservationBinding, ValidUnbound, ValidBound;
  }

  /** The hash does not send two different inputs to one digest. */
  ghost predicate Separates(sha: Hash, a: seq<Byte>, b: seq<Byte>) { sha(a) == sha(b) ==> a == b }

  /** Requests with one binding are one request, if the hash separates their reservation inputs. */
  lemma BindingPinsTheRequest(env: Env, scope: Scope, pairId: Text, d: Digest, d': Digest)
    requires |pairId| < TWO64
    requires ReservationBinding(env, scope, pairId, d).Ok?
    requires ReservationBinding(env, scope, pairId, d) == ReservationBinding(env, scope, pairId, d')
    requires var s := env.scopeDigest(scope).value;
             Separates(env.sha, BindingInput(RESERVATION, [s, pairId, d]), BindingInput(RESERVATION, [s, pairId, d']))
    ensures d == d'
  {
    hide BindingInput;
    var s := env.scopeDigest(scope).value;
    BindingInputInjective(RESERVATION, [s, pairId, d], [s, pairId, d']);
    assert [s, pairId, d][2] == [s, pairId, d'][2];
  }

  /** Only the request that reserved the material can consume it. */
  lemma OnlyTheReservingRequestConsumes(env: Env, r: Record, t: Target, d: Digest, now: U64)
    requires Valid(env, r) && r.lifecycle.Reserved? && |r.pairId| < TWO64
    requires var answer := Apply(env, Pool.Crate(), Some(r), Consume(t, d, now)); answer.Ok? && answer.value.IsConsumed?
    requires env.scopeDigest(r.scope).Ok? ==>
               var s := env.scopeDigest(r.scope).value;
               Separates(env.sha, BindingInput(RESERVATION, [s, r.pairId, d]),
                         BindingInput(RESERVATION, [s, r.pairId, r.materialState.bound.requestDigest]))
    ensures d == r.materialState.bound.requestDigest
  {
    hide PoolKey, BindingInput, ValidUnbound, ValidBound;
    BindingPinsTheRequest(env, r.scope, r.pairId, d, r.materialState.bound.requestDigest);
  }

  // ---- reasons ----

  /** Why a destroying command destroys, as its tombstone records. */
  function ReasonOf(env: Env, r: Record, c: Command): Pool.Reason
    requires r.lifecycle.Reserved? || (r.lifecycle.Available? && !c.DestroyReserved? && !c.RecoverInterrupted?)
  {
    match c
    case DestroyReserved(_, d, reason, _) =>
      if ReservationBinding(env, r.scope, r.pairId, d) == Ok(r.lifecycle.reserved.binding) then reason else Pool.BindingRejected
    case RecoverInterrupted(_, _) => Pool.CrashRecovery
    case Expire(_, now) =>
      if r.lifecycle.Available? || now >= r.lifecycle.reserved.header.materialExpiresAt then Pool.MaterialExpired
      else Pool.Timeout
    case Retire(_, reason, _) => reason
    case _ => Pool.WalletRelocated
  }

  /** A tombstone with reason, time and, for a reservation, the attempt it ended. */
  predicate TellsWhy(r: Record, r': Record, reason: Pool.Reason, now: U64) {
    && r'.lifecycle.Tombstone?
    && r'.lifecycle.tombstone.reason == reason && r'.lifecycle.tombstone.terminalAt == now
    && r'.lifecycle.tombstone.origin
       == (if r.lifecycle.Reserved? then Pool.Attempted(r.lifecycle.reserved.binding) else Pool.Unused)
  }

  /** Destroying and recovering end an attempt, with a tombstone that tells why, when and which. */
  lemma AttemptTombstonesTellWhy(env: Env, r: Record, c: Command)
    requires (c.DestroyReserved? || c.RecoverInterrupted?) && Apply(env, Pool.Crate(), Some(r), c).Ok?
    ensures r.lifecycle.Reserved? && TellsWhy(r, Apply(env, Pool.Crate(), Some(r), c).value.record, ReasonOf(env, r, c), c.now)
  {
    hide Valid, ReservationBinding, ValidCommand, Aimed, DestroyRecord, RecoverRecord, TellsWhy;
    if c.DestroyReserved? {
      DestroyTellsWhy(env, r, c.requestDigest, c.reason, c.now);
    } else {
      RecoverTellsWhy(env, r, c.now);
    }
  }

  lemma DestroyTellsWhy(env: Env, r: Record, d: Digest, reason: Pool.Reason, now: U64)
    requires DestroyRecord(env, Pool.Crate(), r, d, reason, now).Ok?
    ensures r.lifecycle.Reserved?
    ensures var why := if ReservationBinding(env, r.scope, r.pairId, d) == Ok(r.lifecycle.reserved.binding) then reason
                       else Pool.BindingRejected;
            TellsWhy(r, DestroyRecord(env, Pool.Crate(), r, d, reason, now).value, why, now)
  {
    hide Valid, ReservationBinding;
  }

  lemma RecoverTellsWhy(env: Env, r: Record, now: U64)
    requires RecoverRecord(env, Pool.Crate(), r, now).Ok?
    ensures r.lifecycle.Reserved? && TellsWhy(r, RecoverRecord(env, Pool.Crate(), r, now).value, Pool.CrashRecovery, now)
  {
    hide Valid;
  }

  /** So do expiring, relocating and retiring; expiring before the deadline, and retiring for any other reason
      than an epoch, are refused. */
  lemma RemovalTombstonesTellWhy(env: Env, r: Record, c: Command)
    requires c.Expire? || c.InvalidateForRelocation? || c.Retire?
    requires !r.lifecycle.Terminal() && Apply(env, Pool.Crate(), Some(r), c).Ok?
    ensures TellsWhy(r, Apply(env, Pool.Crate(), Some(r), c).value.record, ReasonOf(env, r, c), c.now)
    ensures c.Retire? ==> c.reason == Pool.KeyEpochRetired || c.reason == Pool.ActivationEpochRetired
    ensures c.Expire? && r.lifecycle.Available? ==> c.now >= r.lifecycle.available.materialExpiresAt
    ensures c.Expire? && r.lifecycle.Reserved? ==>
              c.now >= Min(r.lifecycle.reserved.leaseExpiresAt, r.lifecycle.reserved.header.materialExpiresAt)
  {
    hide Valid, ReservationBinding, ValidCommand, Aimed, ExpireRecord, RelocateRecord, RetireRecord, RepeatsRelocation, TellsWhy;
    match c
    case Expire(_, now) => ExpireTellsWhy(env, r, now);
    case Retire(_, reason, now) => RetireTellsWhy(env, r, reason, now);
    case InvalidateForRelocation(_, now) => RelocateTellsWhy(env, r, now);
  }

  lemma ExpireTellsWhy(env: Env, r: Record, now: U64)
    requires ExpireRecord(env, Pool.Crate(), r, now).Ok?
    ensures match r.lifecycle
            case Available(h) =>
              now >= h.materialExpiresAt && TellsWhy(r, ExpireRecord(env, Pool.Crate(), r, now).value, Pool.MaterialExpired, now)
            case Reserved(l) =>
              && now >= Min(l.leaseExpiresAt, l.header.materialExpiresAt)
              && TellsWhy(r, ExpireRecord(env, Pool.Crate(), r, now).value,
                          if now >= l.header.materialExpiresAt then Pool.MaterialExpired else Pool.Timeout, now)
            case _ => false
  {
    hide Valid;
  }

  lemma RetireTellsWhy(env: Env, r: Record, reason: Pool.Reason, now: U64)
    requires RetireRecord(env, Pool.Crate(), r, reason, now).Ok?
    ensures reason == Pool.KeyEpochRetired || reason == Pool.ActivationEpochRetired
    ensures TellsWhy(r, RetireRecord(env, Pool.Crate(), r, reason, now).value, reason, now)
  {
    hide Valid;
  }

  lemma RelocateTellsWhy(env: Env, r: Record, now: U64)
    requires !r.lifecycle.Terminal() && RelocateRecord(env, Pool.Crate(), r, now).Ok?
    ensures TellsWhy(r, RelocateRecord(env, Pool.Crate(), r, now).value, Pool.WalletRelocated, now)
    ensures RelocateRecord(env, Pool.Crate(), r, now).value.lifecycle.tombstone.revision == r.lifecycle.Revision() + 1
  {
    hide Valid;
  }

  // ---- when the commands that destroy succeed ----

  /** From when on the record's material may be destroyed. */
  function Since(l: Pool.PoolRecord): U64
    requires !l.Terminal()
  {
    if l.Available? then l.available.createdAt else l.reserved.reservedAt
  }

  /** When the record's material runs out: a reservation with its lease, if that ends first. */
  function RunsOut(l: Pool.PoolRecord): U64
    requires !l.Terminal()
  {
    if l.Available? then l.available.materialExpiresAt
    else Min(l.reserved.leaseExpiresAt, l.reserved.header.materialExpiresAt)
  }

  /** Entombing a live record succeeds whenever the crate answers with a tombstone of the record's key. */
  lemma EntombingSucceeds(env: Env, r: Record, mutation: Pool.Mutation)
    requires Valid(env, r) && mutation.disposition.Destroy? && mutation.replacement.Tombstone?
    requires mutation.replacement.Key() == r.lifecycle.Key()
    ensures Entombed(env, r, mutation).Ok?
  {
    hide PoolKey;
  }

  lemma CrateEntombs(h: Pool.Header, reason: Pool.Reason, now: U64, origin: Pool.Origin)
    requires h.revision <= 1
    ensures Pool.Entomb(h, reason, now, origin).Ok? <==> now >= h.createdAt
    ensures Pool.Entomb(h, reason, now, origin).Ok? ==>
              var m := Pool.Entomb(h, reason, now, origin).value;
              m.disposition.Destroy? && m.replacement.Tombstone? && m.replacement.Key() == h.key
  {
  }

  lemma DestroyRecordExactly(env: Env, r: Record, d: Digest, reason: Pool.Reason, now: U64)
    requires Valid(env, r) && Fits(r.lifecycle)
    ensures DestroyRecord(env, Pool.Crate(), r, d, reason, now).Ok?
       <==> && r.lifecycle.Reserved? && now >= r.lifecycle.reserved.reservedAt
            && ReservationBinding(env, r.scope, r.pairId, d).Ok?
  {
    hide Valid, ReservationBinding, Entombed, Pool.Entomb;
    if r.lifecycle.Reserved? && ReservationBinding(env, r.scope, r.pairId, d).Ok? {
      var l := r.lifecycle.reserved;
      var attempted := ReservationBinding(env, r.scope, r.pairId, d).value;
      var why := if attempted == l.binding then reason else Pool.BindingRejected;
      CrateEntombs(l.header, why, now, Pool.Attempted(l.binding));
      var m := Pool.Entomb(l.header, why, now, Pool.Attempted(l.binding));
      if m.Ok? { EntombingSucceeds(env, r, m.value); }
    }
  }

  lemma RecoverRecordExactly(env: Env, r: Record, now: U64)
    requires Valid(env, r) && Fits(r.lifecycle)
    ensures RecoverRecord(env, Pool.Crate(), r, now).Ok? <==> r.lifecycle.Reserved? && now >= r.lifecycle.reserved.reservedAt
  {
    hide Valid, Entombed, Pool.Entomb;
    if r.lifecycle.Reserved? {
      var l := r.lifecycle.reserved;
      CrateEntombs(l.header, Pool.CrashRecovery, now, Pool.Attempted(l.binding));
      var m := Pool.Entomb(l.header, Pool.CrashRecovery, now, Pool.Attempted(l.binding));
      if m.Ok? { EntombingSucceeds(env, r, m.value); }
    }
  }

  /** Destroying and recovering succeed exactly on the reservation they are aimed at, from the time it was made. */
  lemma DestructionExactly(env: Env, r: Record, c: Command)
    requires (c.DestroyReserved? || c.RecoverInterrupted?) && Fits(r.lifecycle)
    ensures Apply(env, Pool.Crate(), Some(r), c).Ok?
       <==> && ValidTarget(env, c.target) && c.now > 0 && Aimed(env, r, c.target)
            && r.lifecycle.Reserved? && c.now >= r.lifecycle.reserved.reservedAt
            && (c.DestroyReserved? ==> ReservationBinding(env, r.scope, r.pairId, c.requestDigest).Ok?)
  {
    hide Valid, Fits, ReservationBinding, DestroyRecord, RecoverRecord;
    if Aimed(env, r, c.target) {
      if c.DestroyReserved? {
        DestroyRecordExactly(env, r, c.requestDigest, c.reason, c.now);
      } else {
        RecoverRecordExactly(env, r, c.now);
      }
    }
  }

  /** The crate answers, if at all, with a tombstone of the record's key, and has the material destroyed. */
  predicate Buries(l: Pool.PoolRecord, result: Result<Pool.Mutation>) {
    result.Ok? ==>
      result.value.disposition.Destroy? && result.value.replacement.Tombstone? && result.value.replacement.Key() == l.Key()
  }

  lemma EntombedIfRemoved(env: Env, r: Record, result: Result<Pool.Mutation>)
    requires Valid(env, r) && Buries(r.lifecycle, result)
    ensures result.Ok? ==> Entombed(env, r, result.value).Ok?
  {
    hide Valid, Entombed;
    if result.Ok? { EntombingSucceeds(env, r, result.value); }
  }

  /** The removals of the crate, on live material. */
  lemma CrateRemovesExactly(l: Pool.PoolRecord, reason: Pool.Reason, now: U64)
    requires Fits(l) && !l.Terminal()
    ensures var removed := if l.Available? then Pool.ExpireAvailable(l.available, now) else Pool.ExpireReserved(l.reserved, now);
            (removed.Ok? <==> now >= RunsOut(l)) && Buries(l, removed)
    ensures var removed := if l.Available? then Pool.RelocateAvailable(l.available, now)
                           else Pool.RelocateReserved(l.reserved, now);
            (removed.Ok? <==> now >= Since(l)) && Buries(l, removed)
    ensures var removed := if l.Available? then Pool.RetireAvailable(l.available, reason, now)
                           else Pool.RetireReserved(l.reserved, reason, now);
            (removed.Ok? <==> Pool.Retires(reason) && now >= Since(l)) && Buries(l, removed)
  {
    hide Pool.Entomb;
    if l.Available? {
      AvailableEntombs(l.available, now);
    } else {
      ReservedEntombs(l.reserved, now);
    }
  }

  lemma AvailableEntombs(h: Pool.Header, now: U64)
    requires Fits(Pool.Available(h))
    ensures forall reason :: Pool.Entomb(h, reason, now, Pool.Unused).Ok? <==> now >= h.createdAt
    ensures forall reason :: Buries(Pool.Available(h), Pool.Entomb(h, reason, now, Pool.Unused))
    ensures h.createdAt < h.materialExpiresAt
  {
  }

  lemma ReservedEntombs(l: Pool.ReservedRecord, now: U64)
    requires Fits(Pool.Reserved(l))
    ensures forall reason :: Pool.Entomb(l.header, reason, now, Pool.Attempted(l.binding)).Ok? <==> now >= l.header.createdAt
    ensures forall reason :: Buries(Pool.Reserved(l), Pool.Entomb(l.header, reason, now, Pool.Attempted(l.binding)))
    ensures l.header.createdAt <= l.reservedAt < l.leaseExpiresAt && l.reservedAt < l.header.materialExpiresAt
  {
  }

  lemma RemovalRecordExactly(env: Env, r: Record, reason: Pool.Reason, now: U64)
    requires Valid(env, r) && Fits(r.lifecycle) && !r.lifecycle.Terminal()
    ensures ExpireRecord(env, Pool.Crate(), r, now).Ok? <==> now >= RunsOut(r.lifecycle)
    ensures RelocateRecord(env, Pool.Crate(), r, now).Ok? <==> now >= Since(r.lifecycle)
    ensures RetireRecord(env, Pool.Crate(), r, reason, now).Ok? <==> Pool.Retires(reason) && now >= Since(r.lifecycle)
  {
    hide Valid, Fits, Entombed, Buries, RunsOut, Since, Pool.Retires, Pool.ExpireReserved, Pool.RetireReserved,
         Pool.RelocateReserved, Pool.ExpireAvailable, Pool.RetireAvailable, Pool.RelocateAvailable;
    CrateRemovesExactly(r.lifecycle, reason, now);
    match r.lifecycle
    case Available(h) =>
      EntombedIfRemoved(env, r, Pool.ExpireAvailable(h, now));
      EntombedIfRemoved(env, r, Pool.RetireAvailable(h, reason, now));
      EntombedIfRemoved(env, r, Pool.RelocateAvailable(h, now));
    case Reserved(l) =>
      EntombedIfRemoved(env, r, Pool.ExpireReserved(l, now));
      EntombedIfRemoved(env, r, Pool.RetireReserved(l, reason, now));
      EntombedIfRemoved(env, r, Pool.RelocateReserved(l, now));
  }

  /** What a relocation is aimed at: the record at that revision, or the tombstone that it left itself. */
  predicate Relocates(env: Env, r: Record, t: Target, now: U64) {
    Aimed(env, r, t) || (RepeatsRelocation(r, t, now) && Aimed(env, r, t.(expectedRevision := r.lifecycle.Revision())))
  }

  /** Expiring, relocating and retiring live material succeed exactly from its end, or from its beginning, on; on terminal
      material only relocating does. */
  lemma RemovalExactly(env: Env, r: Record, c: Command)
    requires (c.Expire? || c.InvalidateForRelocation? || c.Retire?) && Fits(r.lifecycle)
    ensures Apply(env, Pool.Crate(), Some(r), c).Ok?
       <==> && ValidTarget(env, c.target) && c.now > 0
            && (c.Retire? ==> c.reason in {Pool.KeyEpochRetired, Pool.ActivationEpochRetired})
            && (if c.InvalidateForRelocation? then Relocates(env, r, c.target, c.now) else Aimed(env, r, c.target))
            && (if r.lifecycle.Terminal() then c.InvalidateForRelocation?
                else c.now >= if c.Expire? then RunsOut(r.lifecycle) else Since(r.lifecycle))
  {
    if Valid(env, r) && !r.lifecycle.Terminal() {
      hide Valid, Fits;
      RemovalRecordExactly(env, r, if c.Retire? then c.reason else Pool.WalletRelocated, c.now);
    }
    hide Valid, Fits, ReservationBinding, ExpireRecord, RelocateRecord, RetireRecord, RunsOut, Since;
  }

  /** The request can be served from the available record. */
  predicate Reservable(env: Env, r: Record, request: Request)
    requires Valid(env, r) && r.lifecycle.Available?
  {
    var h, m := r.lifecycle.available, r.materialState.unbound;
    && ReservationBinding(env, r.scope, r.pairId, request.requestDigest).Ok? && env.isBase64Of32(request.contribution)
    && h.createdAt <= request.reservedAt < h.materialExpiresAt && request.reservedAt + LEASE_MS < TWO64
    && request.expiresAt <= m.expiresAt
  }

  /** A Reserve succeeds exactly when it repeats the reservation or can be served from available material. */
  lemma ReserveExactly(env: Env, r: Record, t: Target, request: Request)
    requires Fits(r.lifecycle)
    ensures Apply(env, Pool.Crate(), Some(r), Reserve(t, request)).Ok?
       <==> && ValidTarget(env, t) && 0 < request.reservedAt < request.expiresAt && Valid(env, r)
            && (|| RepeatsReservation(r, t, request)
                || (Aimed(env, r, t) && r.lifecycle.Available? && Reservable(env, r, request)))
  {
    hide PoolKey, ReservationBinding;
    if Valid(env, r) && r.lifecycle.Available? && 0 < request.reservedAt < request.expiresAt {
      ReserveRecordExactly(env, r, request);
    }
    hide RepeatsReservation, Fits, ValidUnbound, ValidBound, Bind, Lease, Pool.Reserve;
  }

  lemma ReserveRecordExactly(env: Env, r: Record, request: Request)
    requires Valid(env, r) && Fits(r.lifecycle) && r.lifecycle.Available? && 0 < request.reservedAt < request.expiresAt
    ensures r.materialState.AvailableMaterial?
    ensures ReserveRecord(env, Pool.Crate(), r, request).Ok? <==> Reservable(env, r, request)
  {
    hide PoolKey, ReservationBinding;
  }

  /** A lease lasts a minute, or until the request or the material expires if that is sooner. */
  predicate LeasedFor(l: Pool.ReservedRecord, h: Pool.Header, request: Request) {
    && l.reservedAt == request.reservedAt && l.header.materialExpiresAt == h.materialExpiresAt
    && l.leaseExpiresAt in {request.reservedAt + 60_000, request.expiresAt, h.materialExpiresAt}
    && l.leaseExpiresAt <= request.reservedAt + 60_000
    && l.leaseExpiresAt <= request.expiresAt && l.leaseExpiresAt <= h.materialExpiresAt
  }

  predicate SameShares(b: BoundMaterial, m: PoolMaterial) {
    b.active == m.active && b.pairId == m.pairId && b.bigR == m.bigR && b.kShare == m.kShare && b.sigmaShare == m.sigmaShare
  }

  /** A reservation has its lease, and binds the material that was available. */
  lemma ReservationHolds(env: Env, r: Record, request: Request)
    requires r.lifecycle.Available? && ReserveRecord(env, Pool.Crate(), r, request).Ok?
    ensures var made := ReserveRecord(env, Pool.Crate(), r, request).value;
            && made.lifecycle.Reserved? && LeasedFor(made.lifecycle.reserved, r.lifecycle.available, request)
            && made.materialState.ReservedMaterial? && r.materialState.AvailableMaterial?
            && SameShares(made.materialState.bound, r.materialState.unbound)
  {
    hide PoolKey, ReservationBinding, ValidUnbound, ValidBound;
  }
}
