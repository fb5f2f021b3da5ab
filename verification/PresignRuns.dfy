/** What holds over whole runs of create and step calls, whatever the protocol answers. */
module PresignRuns {
  import opened Results
  import opened Bytes
  import opened PresignSessions

  datatype Call<!S> =
    | CreateCall(p: Protocol<S>, init: Init, now: nat)
    | StepCall(p: Protocol<S>, batch: Batch, now: nat)

  function After<S>(sessions: Sessions<S>, call: Call<S>): (Sessions<S>, Result<Progress>) {
    match call
    case CreateCall(p, init, now) => Created(p, sessions, init, now)
    case StepCall(p, batch, now) => Stepped(p, sessions, batch, now)
  }

  /** The sessions before call `n`, starting from none. */
  function SessionsAt<S>(calls: seq<Call<S>>, n: nat): Sessions<S>
    requires n <= |calls|
  {
    if n == 0 then map[] else After(SessionsAt(calls, n - 1), calls[n - 1]).0
  }

  function ResultAt<S>(calls: seq<Call<S>>, n: nat): Result<Progress>
    requires n < |calls|
  {
    After(SessionsAt(calls, n), calls[n]).1
  }

  predicate CreatesAt<S>(calls: seq<Call<S>>, i: nat, id: Text)
    requires i < |calls|
  {
    calls[i].CreateCall? && calls[i].init.id == id && ResultAt(calls, i).Ok?
  }

  predicate CompletesAt<S>(calls: seq<Call<S>>, i: nat, id: Text)
    requires i < |calls|
  {
    calls[i].StepCall? && calls[i].batch.id == id && ResultAt(calls, i).Ok? && ResultAt(calls, i).value.Complete?
  }

  // ---- one call ----

  /** A step leaves every other id alone. */
  lemma StepLeavesOthers<S>(p: Protocol<S>, sessions: Sessions<S>, batch: Batch, now: nat, id: Text)
    requires id != batch.id
    ensures var after := Stepped(p, sessions, batch, now).0;
            (id in after <==> id in sessions) && (id in sessions ==> after[id] == sessions[id])
  {
    hide Advanced;
  }

  /** A refused step changes nothing; any other failing step removes the session; one that continues keeps its
      terms; one that completes removes it; and a step succeeds only in the stage, under the terms and in the time
      of its session. */
  lemma StepOutcomes<S>(p: Protocol<S>, sessions: Sessions<S>, batch: Batch, now: nat)
    ensures var (after, r) := Stepped(p, sessions, batch, now);
            && (Refused(p, sessions, batch, now) ==> r.Err? && after == sessions)
            && (r.Err? && !Refused(p, sessions, batch, now) ==> batch.id !in after)
            && (r.Ok? ==> batch.id in sessions && sessions[batch.id].terms == batch.terms
                          && batch.terms.ceremonyExpiresAt > now && p.validBatch(batch, now)
                          && batch.requestedStage == p.stage(sessions[batch.id].session)
                          && batch.requestedStage in {Triples, Presign})
            && (r.Ok? && r.value.Complete? ==> batch.id !in after)
            && (r.Ok? && r.value.Continue? ==> batch.id in after && after[batch.id].terms == sessions[batch.id].terms)
  {
    hide FedAll, PutOf;
  }

  /** The batch is its session's: same terms, in time, and in the stage the session is in. */
  predicate Suits<S>(p: Protocol<S>, entry: Entry<S>, batch: Batch, now: nat) {
    && entry.terms == batch.terms && now < batch.terms.ceremonyExpiresAt
    && p.stage(entry.session) == batch.requestedStage && batch.requestedStage in {Triples, Presign}
  }

  /** The session, fed the batch, is not done, or hands out a presignature the pool can take. */
  predicate Delivers<S>(p: Protocol<S>, terms: Terms, session: S) {
    var (polled, poll) := p.poll(session);
    (poll.event != PresignDone && poll.stage != Done) || (p.take(polled).Ok? && PutOf(p, terms, p.take(polled).value).Ok?)
  }

  /** A step succeeds exactly on a valid batch that suits its session and feeds it to where it delivers. An invalid
      batch, or one under another authority, leaves the session alone; any other failure removes it. */
  lemma StepExactly<S>(p: Protocol<S>, sessions: Sessions<S>, batch: Batch, now: nat)
    requires batch.id in sessions
    ensures var entry := sessions[batch.id];
            var (after, r) := Stepped(p, sessions, batch, now);
            && (r.Ok? <==> && p.validBatch(batch, now) && Suits(p, entry, batch, now)
                           && FedAll(p, entry.session, batch.messages).Ok?
                           && Delivers(p, batch.terms, FedAll(p, entry.session, batch.messages).value))
            && (r.Err? ==>
                  if p.validBatch(batch, now) && entry.terms.authority == batch.terms.authority
                  then after == sessions - {batch.id} else after == sessions)
  {
    AdvancesExactly(p, sessions[batch.id], batch, now);
    hide Advanced, FedAll, Delivers;
  }

  lemma AdvancesExactly<S>(p: Protocol<S>, entry: Entry<S>, batch: Batch, now: nat)
    ensures Advanced(p, entry, batch, now).Ok?
       <==> && Suits(p, entry, batch, now) && FedAll(p, entry.session, batch.messages).Ok?
            && Delivers(p, batch.terms, FedAll(p, entry.session, batch.messages).value)
  {
    hide FedAll, PutOf;
    if Suits(p, entry, batch, now) && FedAll(p, entry.session, batch.messages).Ok? {
      var session := FedAll(p, entry.session, batch.messages).value;
      var polled := p.poll(session).0;
      if Delivers(p, batch.terms, session) {
        assert p.take(polled).Ok? ==> p.take(polled) == Ok(p.take(polled).value);
        assert Advanced(p, entry, batch, now).Ok?;
      } else {
        assert Advanced(p, entry, batch, now).Err?;
      }
    }
  }

  /** A create removes only expired sessions, and touches no other live one. */
  lemma CreateLeavesLive<S>(p: Protocol<S>, sessions: Sessions<S>, init: Init, now: nat, id: Text)
    ensures var (after, r) := Created(p, sessions, init, now);
            && (id in sessions && sessions[id].terms.ceremonyExpiresAt > now ==> id in after && after[id] == sessions[id])
            && (id in after && id in sessions && !(r.Ok? && id == init.id) ==> after[id] == sessions[id])
            && (id in after && id !in sessions ==> id == init.id && r.Ok?)
            && (r.Ok? ==> p.validInit(init, now) && init.id in after && after[init.id].terms == init.terms)
            && (r.Ok? && init.id in sessions ==> sessions[init.id].terms.ceremonyExpiresAt <= now)
  {
    hide Opened;
  }

  /** The session that a create stores, if it gets that far: started, given the first message and polled. */
  ghost predicate Starts<S>(p: Protocol<S>, init: Init, now: nat, session: S) {
    && p.validInit(init, now) && p.start(init).Ok? && p.decode(init.firstMessage).Ok?
    && p.message(p.start(init).value, p.decode(init.firstMessage).value) == Ok(session)
  }

  /** A create succeeds exactly when its session starts and its id is free or expired. Then it stores the polled
      session under the create's terms and answers with the poll; and no expired session is left. */
  lemma CreateExactly<S>(p: Protocol<S>, sessions: Sessions<S>, init: Init, now: nat, session: S)
    requires Starts(p, init, now, session)
    ensures var (after, r) := Created(p, sessions, init, now);
            var (polled, poll) := p.poll(session);
            && (r.Ok? <==> init.id !in sessions || sessions[init.id].terms.ceremonyExpiresAt <= now)
            && (r.Ok? ==> init.id in after && after[init.id] == Entry(init.terms, polled)
                          && r.value == Continue(init.id, poll.stage, poll.event, Encoded(p, poll.outgoing)))
            && (forall id :: id in after && !(r.Ok? && id == init.id) ==>
                  after[id].terms.ceremonyExpiresAt > now)
  {
  }

  /** And a create that succeeds has started its session. */
  lemma CreateStarts<S>(p: Protocol<S>, sessions: Sessions<S>, init: Init, now: nat) returns (session: S)
    requires Created(p, sessions, init, now).1.Ok?
    ensures Starts(p, init, now, session)
  {
    session := p.message(p.start(init).value, p.decode(init.firstMessage).value).value;
  }

  // ---- the messages of a batch ----

  /** A session as a step leaves it between two messages. */
  predicate Settled<S>(p: Protocol<S>, session: S) { p.stage(session) != TriplesDone }

  /** Finished triples always go on to the presign stage, and nothing else does: if starting it leaves the triples
      behind, then so does every fed session. */
  lemma {:induction false} FedSessionsAreSettled<S(!new)>(p: Protocol<S>, session: S, messages: seq<Text>)
    requires Settled(p, session) && FedAll(p, session, messages).Ok?
    requires forall s: S :: p.startPresign(s).Ok? ==> Settled(p, p.startPresign(s).value)
    ensures Settled(p, FedAll(p, session, messages).value)
  {
    if messages != [] {
      var n := |messages| - 1;
      FedSessionsAreSettled(p, session, messages[..n]);
      var before := FedAll(p, session, messages[..n]).value;
      var moved := p.message(before, p.decode(messages[n]).value).value;
      if !Settled(p, moved) { assert p.startPresign(moved).Ok?; }
    }
  }

  /** Without finished triples, a batch is its decoded messages, one after the other. */
  lemma FedIsTheMessage<S>(p: Protocol<S>, session: S, encoded: Text, text: Text, session': S)
    requires p.decode(encoded) == Ok(text) && p.message(session, text) == Ok(session') && Settled(p, session')
    ensures Fed(p, session, encoded) == Ok(session')
  {
  }

  /** Two batches are one: where a batch is cut does not matter. */
  lemma {:induction false} BatchesCompose<S>(p: Protocol<S>, session: S, a: seq<Text>, b: seq<Text>)
    ensures FedAll(p, session, a + b)
         == match FedAll(p, session, a) case Err(e) => Err(e) case Ok(s) => FedAll(p, s, b)
    decreases |b|
  {
    hide Fed;
    if b == [] {
      assert a + b == a;
    } else {
      var n := |b| - 1;
      assert (a + b)[..|a| + n] == a + b[..n] && (a + b)[|a| + n] == b[n];
      BatchesCompose(p, session, a, b[..n]);
    }
  }

  /** From one call to the next, a session under some id keeps its terms, unless a create replaces it. */
  lemma TermsStay<S>(calls: seq<Call<S>>, n: nat, id: Text)
    requires n < |calls| && id in SessionsAt(calls, n + 1) && !CreatesAt(calls, n, id)
    ensures id in SessionsAt(calls, n)
    ensures SessionsAt(calls, n + 1)[id].terms == SessionsAt(calls, n)[id].terms
  {
    hide Created, Stepped;
    var sessions := SessionsAt(calls, n);
    match calls[n]
    case CreateCall(p, init, now) => CreateLeavesLive(p, sessions, init, now, id);
    case StepCall(p, batch, now) =>
      if id == batch.id { StepOutcomes(p, sessions, batch, now); } else { StepLeavesOthers(p, sessions, batch, now, id); }
  }

  /** A presignature is the point R and the two shares, side by side; the put carries their encodings under the create's
      scope and expiry, and its id is that of R. */
  predicate CarriesPresignature<S>(p: Protocol<S>, put: PoolPut, terms: Terms, r: Text, k: Text, sigma: Text) {
    && |r| == 33 && |k| == 32 && |sigma| == 32
    && put.bigR == p.encode(r) && put.kShare == p.encode(k) && put.sigmaShare == p.encode(sigma)
    && put.presignatureId == Ascii("presig-") + p.encode(p.sha(r))
    && put.scope == terms.scope && put.expiresAt == terms.materialExpiresAt
  }

  /** When a step completes, the session has been fed the whole batch and polled, and what take then gives, cut into its
      three parts, is what the put carries. */
  lemma CompletionHandsOutThePresignature<S>(p: Protocol<S>, sessions: Sessions<S>, batch: Batch, now: nat)
    returns (session: S, r: Text, k: Text, sigma: Text)
    requires var answer := Stepped(p, sessions, batch, now).1; answer.Ok? && answer.value.Complete?
    ensures batch.id in sessions && FedAll(p, sessions[batch.id].session, batch.messages) == Ok(session)
    ensures var (polled, poll) := p.poll(session);
            && (poll.event == PresignDone || poll.stage == Done) && p.take(polled) == Ok(r + k + sigma)
            && Stepped(p, sessions, batch, now).1.value.outgoing == Encoded(p, poll.outgoing)
    ensures CarriesPresignature(p, Stepped(p, sessions, batch, now).1.value.put, batch.terms, r, k, sigma)
  {
    hide FedAll;
    session := FedAll(p, sessions[batch.id].session, batch.messages).value;
    var taken := p.take(p.poll(session).0).value;
    r, k, sigma := taken[..33], taken[33..65], taken[65..97];
    assert r + k + sigma == taken;
  }

  /** When it continues, the session stored is the one fed and polled, and the answer is the poll's. */
  lemma ContinuingStoresTheSession<S>(p: Protocol<S>, sessions: Sessions<S>, batch: Batch, now: nat)
    returns (session: S)
    requires var answer := Stepped(p, sessions, batch, now).1; answer.Ok? && answer.value.Continue?
    ensures batch.id in sessions && FedAll(p, sessions[batch.id].session, batch.messages) == Ok(session)
    ensures var (polled, poll) := p.poll(session);
            var (after, answer) := Stepped(p, sessions, batch, now);
            && poll.event != PresignDone && poll.stage != Done
            && batch.id in after && after[batch.id] == Entry(sessions[batch.id].terms, polled)
            && answer == Ok(Continue(batch.id, poll.stage, poll.event, Encoded(p, poll.outgoing)))
  {
    hide FedAll;
    session := FedAll(p, sessions[batch.id].session, batch.messages).value;
  }

  // ---- runs ----

  /** Every live session goes back to a successful create, whose terms it still has, and since which its id was
      always present. */
  lemma {:induction false} SessionsComeFromCreates<S>(calls: seq<Call<S>>, n: nat, id: Text) returns (i: nat)
    requires n <= |calls| && id in SessionsAt(calls, n)
    ensures i < n && CreatesAt(calls, i, id) && SessionsAt(calls, n)[id].terms == calls[i].init.terms
    ensures forall k :: i < k <= n ==> id in SessionsAt(calls, k) && SessionsAt(calls, k)[id].terms == calls[i].init.terms
  {
    hide After;
    if CreatesAt(calls, n - 1, id) {
      i := n - 1;
      CreateSetsTerms(calls, i, id);
    } else {
      TermsStay(calls, n - 1, id);
      i := SessionsComeFromCreates(calls, n - 1, id);
    }
  }

  lemma CreateSetsTerms<S>(calls: seq<Call<S>>, i: nat, id: Text)
    requires i < |calls| && CreatesAt(calls, i, id)
    ensures id in SessionsAt(calls, i + 1) && SessionsAt(calls, i + 1)[id].terms == calls[i].init.terms
  {
    hide Created;
    CreateLeavesLive(calls[i].p, SessionsAt(calls, i), calls[i].init, calls[i].now, id);
  }

  /** Completing uses the session up. */
  lemma CompletionEndsSession<S>(calls: seq<Call<S>>, j: nat, id: Text)
    requires j < |calls| && CompletesAt(calls, j, id)
    ensures id in SessionsAt(calls, j) && SessionsAt(calls, j)[id].terms == calls[j].batch.terms
    ensures id !in SessionsAt(calls, j + 1)
  {
    hide Stepped;
    StepOutcomes(calls[j].p, SessionsAt(calls, j), calls[j].batch, calls[j].now);
  }

  /** Each successful create yields at most one completion: between two completions of an id there is a create. */
  lemma OneCompletionPerCreate<S>(calls: seq<Call<S>>, j: nat, k: nat, id: Text) returns (i: nat)
    requires j < k < |calls| && CompletesAt(calls, j, id) && CompletesAt(calls, k, id)
    ensures j < i < k && CreatesAt(calls, i, id)
  {
    hide After;
    CompletionEndsSession(calls, j, id);
    CompletionEndsSession(calls, k, id);
    i := SessionsComeFromCreates(calls, k, id);
  }

  /** A completion hands out the create's authority, and a pool record under the create's scope and expiry, in
      time; in between, the session always had those terms. */
  lemma CompletionKeepsTerms<S>(calls: seq<Call<S>>, j: nat, id: Text) returns (i: nat)
    requires j < |calls| && CompletesAt(calls, j, id)
    ensures i < j && CreatesAt(calls, i, id)
    ensures forall k :: i < k <= j ==> id in SessionsAt(calls, k) && SessionsAt(calls, k)[id].terms == calls[i].init.terms
    ensures var done, terms := ResultAt(calls, j).value, calls[i].init.terms;
            && done.authority == terms.authority && done.put.scope == terms.scope
            && done.put.expiresAt == terms.materialExpiresAt && calls[j].now < terms.ceremonyExpiresAt
  {
    CompletionEndsSession(calls, j, id);
    hide SessionsAt;
    i := SessionsComeFromCreates(calls, j, id);
    StepOutcomes(calls[j].p, SessionsAt(calls, j), calls[j].batch, calls[j].now);
    CompletionCarriesTerms(calls[j].p, SessionsAt(calls, j), calls[j].batch, calls[j].now);
    hide Stepped, Created;
  }

  /** And it hands out the presignature that take gave, under those terms. */
  lemma CompletionKeepsThePresignature<S>(calls: seq<Call<S>>, j: nat, id: Text)
    returns (i: nat, session: S, r: Text, k: Text, sigma: Text)
    requires j < |calls| && CompletesAt(calls, j, id)
    ensures i < j && CreatesAt(calls, i, id) && calls[j].p.take(session) == Ok(r + k + sigma)
    ensures CarriesPresignature(calls[j].p, ResultAt(calls, j).value.put, calls[i].init.terms, r, k, sigma)
  {
    i := CompletionKeepsTerms(calls, j, id);
    hide SessionsAt, Created;
    session, r, k, sigma := CompletionHandsOutThePresignature(calls[j].p, SessionsAt(calls, j), calls[j].batch, calls[j].now);
    StepOutcomes(calls[j].p, SessionsAt(calls, j), calls[j].batch, calls[j].now);
    hide Stepped, CarriesPresignature;
    session := calls[j].p.poll(session).0;
  }

  lemma CompletionCarriesTerms<S>(p: Protocol<S>, sessions: Sessions<S>, batch: Batch, now: nat)
    requires var r := Stepped(p, sessions, batch, now).1; r.Ok? && r.value.Complete?
    ensures var done := Stepped(p, sessions, batch, now).1.value;
            && done.authority == batch.terms.authority && done.put.scope == batch.terms.scope
            && done.put.expiresAt == batch.terms.materialExpiresAt
  {
    hide FedAll;
  }
}
