/** The SigningWorker's live presignature sessions: starting one, and advancing one by a batch of messages. */
module PresignSessions {
  import opened Results
  import opened Bytes

  type Text = seq<Byte>

  datatype Stage = Triples | TriplesDone | Presign | Done

  datatype SessionEvent = NoEvent | TriplesReady | FinalBatchReady | PresignDone

  datatype Poll = Poll(stage: Stage, event: SessionEvent, outgoing: seq<Text>)

  /** The terms a session is created under. */
  datatype Terms = Terms(scope: Text, authority: Text, ceremonyExpiresAt: nat, materialExpiresAt: nat)

  datatype Entry<S> = Entry(terms: Terms, session: S)

  datatype Init = Init(id: Text, terms: Terms, firstMessage: Text, relayerShare: Text)

  datatype Batch = Batch(id: Text, terms: Terms, requestedStage: Stage, messages: seq<Text>)

  datatype PoolPut = PoolPut(scope: Text, presignatureId: Text, bigR: Text, kShare: Text, sigmaShare: Text, expiresAt: nat)

  datatype Progress =
    | Continue(id: Text, stage: Stage, event: SessionEvent, outgoing: seq<Text>)
    | Complete(authority: Text, put: PoolPut, outgoing: seq<Text>)

  /** The validators, encodings and cryptographic session around the map. `S` is the session's state; a call may
      answer differently every time, since it draws randomness. */
  datatype Protocol<!S> = Protocol(
    validInit: (Init, nat) -> bool,
    validBatch: (Batch, nat) -> bool,
    start: Init -> Result<S>,
    decode: Text -> Result<Text>,
    encode: Text -> Text,
    message: (S, Text) -> Result<S>,
    stage: S -> Stage,
    startPresign: S -> Result<S>,
    poll: S -> (S, Poll),
    take: S -> Result<Text>,
    validPut: PoolPut -> bool,
    sha: Hash)

  type Sessions<S> = map<Text, Entry<S>>

  // ---- as functions of the map ----

  function Live<S>(sessions: Sessions<S>, now: nat): Sessions<S> {
    map id | id in sessions && sessions[id].terms.ceremonyExpiresAt > now :: sessions[id]
  }

  function Encoded<S>(p: Protocol<S>, messages: seq<Text>): (r: seq<Text>)
    ensures |r| == |messages|
  {
    seq(|messages|, i requires 0 <= i < |messages| => p.encode(messages[i]))
  }

  /** continue_progress. */
  function Continued<S>(p: Protocol<S>, id: Text, poll: Poll): Progress {
    Continue(id, poll.stage, poll.event, Encoded(p, poll.outgoing))
  }

  /** The first client message, in the session that create starts. */
  function Opened<S>(p: Protocol<S>, init: Init, session: S): Result<(S, Progress)> {
    var first :- p.decode(init.firstMessage);
    var session' :- p.message(session, first);
    var (session'', poll) := p.poll(session');
    Ok((session'', Continued(p, init.id, poll)))
  }

  /** create_signing_worker_ecdsa_presign_session_v1. */
  function Created<S>(p: Protocol<S>, sessions: Sessions<S>, init: Init, now: nat): (Sessions<S>, Result<Progress>) {
    if !p.validInit(init, now) then (sessions, Err("invalid request"))
    else
      match p.start(init)
      case Err(error) => (sessions, Err(error))
      case Ok(session) =>
        var live := Live(sessions, now);
        if init.id in live then (live, Err("session id already exists"))
        else
          match Opened(p, init, session)
          case Err(error) => (live, Err(error))
          case Ok((session', progress)) => (live[init.id := Entry(init.terms, session')], Ok(progress))
  }

  /** One message of the batch; finished triples start the presign stage at once. */
  function Fed<S>(p: Protocol<S>, session: S, encoded: Text): Result<S> {
    var message :- p.decode(encoded);
    var session' :- p.message(session, message);
    if p.stage(session') == TriplesDone then p.startPresign(session') else Ok(session')
  }

  function FedAll<S>(p: Protocol<S>, session: S, messages: seq<Text>): Result<S> {
    if messages == [] then Ok(session)
    else
      var before :- FedAll(p, session, messages[..|messages| - 1]);
      Fed(p, before, messages[|messages| - 1])
  }

  function PutOf<S>(p: Protocol<S>, terms: Terms, presignature: Text): Result<PoolPut> {
    var _ :- Check(|presignature| == 97, "presign output must contain 97 bytes");
    var bigR := presignature[..33];
    var put := PoolPut(terms.scope, Ascii("presig-") + p.encode(p.sha(bigR)), p.encode(bigR),
                       p.encode(presignature[33..65]), p.encode(presignature[65..97]), terms.materialExpiresAt);
    var _ :- Check(p.validPut(put), "invalid pool put");
    Ok(put)
  }

  /** What becomes of the removed entry: finished, with its presignature, or to be put back. */
  function Advanced<S>(p: Protocol<S>, entry: Entry<S>, batch: Batch, now: nat): Result<(Option<Entry<S>>, Progress)> {
    var _ :- Check(entry.terms.ceremonyExpiresAt > now && entry.terms == batch.terms, "scope or expiry mismatch");
    var _ :- Check(batch.requestedStage == p.stage(entry.session) && batch.requestedStage in {Triples, Presign},
                   "stage mismatch");
    var session :- FedAll(p, entry.session, batch.messages);
    var (session', poll) := p.poll(session);
    if poll.event == PresignDone || poll.stage == Done then
      var presignature :- p.take(session');
      var put :- PutOf(p, entry.terms, presignature);
      Ok((None, Complete(entry.terms.authority, put, Encoded(p, poll.outgoing))))
    else Ok((Some(Entry(entry.terms, session')), Continued(p, batch.id, poll)))
  }

  /** The batch is refused before the session is touched. */
  predicate Refused<S>(p: Protocol<S>, sessions: Sessions<S>, batch: Batch, now: nat) {
    || !p.validBatch(batch, now)
    || (batch.id in sessions && sessions[batch.id].terms.authority != batch.terms.authority)
  }

  /** step_signing_worker_ecdsa_presign_session_v1. */
  function Stepped<S>(p: Protocol<S>, sessions: Sessions<S>, batch: Batch, now: nat): (Sessions<S>, Result<Progress>) {
    if Refused(p, sessions, batch, now) then (sessions, Err("refused"))
    else if batch.id !in sessions then (sessions, Err("session is missing"))
    else
      var rest := sessions - {batch.id};
      match Advanced(p, sessions[batch.id], batch, now)
      case Err(error) => (rest, Err(error))
      case Ok((None, progress)) => (rest, Ok(progress))
      case Ok((Some(entry), progress)) => (rest[batch.id := entry], Ok(progress))
  }

  // ---- as updates of the map ----

  class SessionMap<S(==)> {
    var sessions: Sessions<S>

    constructor ()
      ensures sessions == map[]
    {
      sessions := map[];
    }

    method Create(p: Protocol<S>, init: Init, now: nat) returns (r: Result<Progress>)
      modifies this
      ensures (sessions, r) == Created(p, old(sessions), init, now)
    {
      if !p.validInit(init, now) { return Err("invalid request"); }
      match p.start(init) {
        case Err(error) => return Err(error);
        case Ok(session) =>
          sessions := Live(sessions, now);
          if init.id in sessions { return Err("session id already exists"); }
          match Opened(p, init, session) {
            case Err(error) => return Err(error);
            case Ok((session', progress)) =>
              sessions := sessions[init.id := Entry(init.terms, session')];
              return Ok(progress);
          }
      }
    }

    method Step(p: Protocol<S>, batch: Batch, now: nat) returns (r: Result<Progress>)
      modifies this
      ensures (sessions, r) == Stepped(p, old(sessions), batch, now)
    {
      if !p.validBatch(batch, now) { return Err("refused"); }
      if batch.id in sessions && sessions[batch.id].terms.authority != batch.terms.authority { return Err("refused"); }
      if batch.id !in sessions { return Err("session is missing"); }
      var entry := sessions[batch.id];
      sessions := sessions - {batch.id};
      if entry.terms.ceremonyExpiresAt <= now || entry.terms.ceremonyExpiresAt != batch.terms.ceremonyExpiresAt
         || entry.terms.materialExpiresAt != batch.terms.materialExpiresAt || entry.terms.scope != batch.terms.scope
      {
        return Err("scope or expiry mismatch");
      }
      if !((batch.requestedStage == Triples && p.stage(entry.session) == Triples)
           || (batch.requestedStage == Presign && p.stage(entry.session) == Presign))
      {
        return Err("stage mismatch");
      }
      var fed := Feed(p, entry.session, batch.messages);
      match fed {
        case Err(error) => return Err(error);
        case Ok(session) =>
          var (session', poll) := p.poll(session);
          if poll.event == PresignDone || poll.stage == Done {
            r := Finish(p, entry.terms, session', poll);
          } else {
            sessions := sessions[batch.id := Entry(entry.terms, session')];
            return Ok(Continued(p, batch.id, poll));
          }
      }
    }
  }

  /** The message loop of step. */
  method Feed<S>(p: Protocol<S>, start: S, messages: seq<Text>) returns (r: Result<S>)
    ensures r == FedAll(p, start, messages)
  {
    var session := start;
    for i := 0 to |messages|
      invariant FedAll(p, start, messages[..i]) == Ok(session)
    {
      assert messages[..i + 1][..i] == messages[..i];
      var fed := Fed(p, session, messages[i]);
      match fed {
        case Err(error) =>
          FailureStays(p, start, messages, i + 1);
          return Err(error);
        case Ok(next) => session := next;
      }
    }
    assert messages[..|messages|] == messages;
    return Ok(session);
  }

  lemma {:induction false} FailureStays<S>(p: Protocol<S>, session: S, messages: seq<Text>, n: nat)
    requires n <= |messages| && FedAll(p, session, messages[..n]).Err?
    ensures FedAll(p, session, messages) == FedAll(p, session, messages[..n])
    decreases |messages| - n
  {
    if n < |messages| {
      assert messages[..n + 1][..n] == messages[..n];
      FailureStays(p, session, messages, n + 1);
    } else {
      assert messages[..n] == messages;
    }
  }

  method Finish<S>(p: Protocol<S>, terms: Terms, session: S, poll: Poll) returns (r: Result<Progress>)
    ensures r == match p.take(session)
                 case Err(error) => Err(error)
                 case Ok(presignature) =>
                   match PutOf(p, terms, presignature)
                   case Err(error) => Err(error)
                   case Ok(put) => Ok(Complete(terms.authority, put, Encoded(p, poll.outgoing)))
  {
    var taken := p.take(session);
    match taken {
      case Err(error) => return Err(error);
      case Ok(presignature) =>
        var put := PutOf(p, terms, presignature);
        match put {
          case Err(error) => return Err(error);
          case Ok(request) => return Ok(Complete(terms.authority, request, Encoded(p, poll.outgoing)));
        }
    }
  }
}
