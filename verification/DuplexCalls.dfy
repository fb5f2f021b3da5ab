/** The calls of an endpoint, as its object makes them on a peer's envelopes, are runs of the steps of its side. */
module DuplexCalls {
  import opened Results
  import opened Bytes
  import opened Duplex
  import opened DuplexSystem

  /** The object holds the side's endpoint, and its events and outgoing envelopes are the two channels. */
  predicate Represents(c: Connection, l: Local) {
    c.e == l.x.e && c.events == Encoded(l.inn) && c.outgoing == Encoded(l.out)
  }

  predicate AllSendable(ms: seq<Message>, json: Json) { forall i :: 0 <= i < |ms| ==> Sendable(ms[i], json) }

  ghost predicate ArePolls(polls: seq<Local>) {
    polls != [] && forall i :: 0 <= i < |polls| - 1 ==> PollStep(polls[i], polls[i + 1])
  }

  /** Polling goes no further: nothing is there, or what comes first is refused. */
  predicate NoPoll(l: Local) { Waiting(l.x) && (l.inn == [] || Accept(l.x.e, l.inn[0]).Err?) }

  lemma EncodedTail(ms: seq<Message>)
    requires ms != []
    ensures Encoded(ms)[1..] == Encoded(ms[1..]) && Encoded(ms)[0] == Encode(ms[0])
  {
    hide Encode;
  }

  lemma EncodedConcat(a: seq<Message>, b: seq<Message>)
    ensures Encoded(a + b) == Encoded(a) + Encoded(b)
  {
    hide Encode;
  }

  /** One poll. */
  lemma PollIsAStep(c: Connection, json: Json, l: Local)
    requires Represents(c, l) && AllSendable(l.inn, json) && Waiting(l.x)
    ensures Polled(c, json).Ok? <==> !NoPoll(l)
    ensures Polled(c, json).Ok? ==>
              && l.inn != [] && Accept(l.x.e, l.inn[0]).Ok?
              && var (e, replies) := Accept(l.x.e, l.inn[0]).value;
                 var l' := Local(l.x.(e := e), l.inn[1..], l.out + replies);
                 PollStep(l, l') && Represents(Polled(c, json).value, l')
  {
    hide Accept, Encoded;
    assert |Encoded(l.inn)| == |l.inn|;
    if l.inn != [] {
      EncodedTail(l.inn);
      PollAcceptsTheMessage(c, json, l.inn[0]);
      if Accept(l.x.e, l.inn[0]).Ok? { EncodedConcat(l.out, Accept(l.x.e, l.inn[0]).value.1); }
    }
  }

  lemma PollsPrepend(l: Local, polls: seq<Local>)
    requires ArePolls(polls) && PollStep(l, polls[0])
    ensures ArePolls([l] + polls)
  {
    hide PollStep;
    var longer := [l] + polls;
    forall i | 0 <= i < |longer| - 1 ensures PollStep(longer[i], longer[i + 1]) {
      if i > 0 { assert PollStep(polls[i - 1], polls[(i - 1) + 1]); }
    }
  }

  /** A loop that polls is a sequence of poll steps, up to where it ends or can go no further. */
  lemma {:induction false} LoopIsPolls(c: Connection, json: Json, waiting: Endpoint -> bool, l: Local)
    returns (polls: seq<Local>)
    requires Represents(c, l) && AllSendable(l.inn, json)
    requires forall e :: waiting(e) <==> Waiting(l.x.(e := e))
    ensures ArePolls(polls) && polls[0] == l
    ensures var end := polls[|polls| - 1];
            && end.x == l.x.(e := end.x.e) && AllSendable(end.inn, json)
            && match PolledWhile(c, json, waiting)
               case Ok(c') => !Waiting(end.x) && Represents(c', end)
               case Err(_) => NoPoll(end)
    decreases |l.inn|
  {
    hide PollStep, Waiting, Polled;
    assert l.x.(e := c.e) == l.x;
    assert waiting(c.e) <==> Waiting(l.x);
    if waiting(c.e) {
      PollIsAStep(c, json, l);
      if Polled(c, json).Err? {
        polls := [l];
      } else {
        var (e, replies) := Accept(l.x.e, l.inn[0]).value;
        var l' := Local(l.x.(e := e), l.inn[1..], l.out + replies);
        var rest := LoopIsPolls(Polled(c, json).value, json, waiting, l');
        PollsPrepend(l, rest);
        polls := [l] + rest;
      }
    } else {
      polls := [l];
    }
  }

  /** send: the call, polls while the window is full, and the data; or the polls reach where they can go no further. */
  lemma SendIsSteps(c: Connection, json: Json, l: Local, payload: Payload) returns (polls: seq<Local>, end: Local)
    requires Represents(c, l) && AllSendable(l.inn, json) && l.x.phase == Driving && |payload| <= MAX_RUNTIME_MESSAGE_BYTES
    ensures ArePolls(polls) && CallStep(l, polls[0]) && polls[0].x.phase == InSend(payload)
    ensures match PolledWhile(c, json, Full)
            case Err(_) => NoPoll(polls[|polls| - 1])
            case Ok(c') =>
              c'.e.sent + 1 < TWO32 ==>
                && SendStep(polls[|polls| - 1], end)
                && Represents(c'.(e := c'.e.(sent := c'.e.sent + 1),
                                  outgoing := c'.outgoing + [Encode(Data(c'.e.sent, payload))]), end)
  {
    var called := l.(x := l.x.(phase := InSend(payload)));
    polls := LoopIsPolls(c, json, Full, called);
    end := polls[|polls| - 1];
    if end.x.e.sent + 1 < TWO32 {
      var data := Data(end.x.e.sent, payload);
      EncodedConcat(end.out, [data]);
      hide Encode, Accept;
      assert Encoded([data]) == [Encode(data)];
      end := Local(end.x.(e := end.x.e.(sent := end.x.e.sent + 1), phase := Driving, log := end.x.log + [payload]),
                   end.inn, end.out + [data]);
    }
  }

  /** receive: the call, polls while there is nothing, and the oldest message if it has the expected length. */
  lemma ReceiveIsSteps(c: Connection, json: Json, l: Local, expected: nat) returns (polls: seq<Local>, end: Local)
    requires Represents(c, l) && AllSendable(l.inn, json) && l.x.phase == Driving
    ensures ArePolls(polls) && CallStep(l, polls[0]) && polls[0].x.phase == InReceive(expected)
    ensures match PolledWhile(c, json, Idle)
            case Err(_) => NoPoll(polls[|polls| - 1])
            case Ok(c') =>
              c'.e.pending != [] && |c'.e.pending[0]| == expected ==>
                && TakeStep(polls[|polls| - 1], end) && end.x.taken == l.x.taken + [c'.e.pending[0]]
                && Represents(c'.(e := c'.e.(pending := c'.e.pending[1..])), end)
  {
    var called := l.(x := l.x.(phase := InReceive(expected)));
    polls := LoopIsPolls(c, json, Idle, called);
    end := polls[|polls| - 1];
    hide Encoded, Accept;
    var pending := end.x.e.pending;
    if pending != [] {
      end := end.(x := end.x.(e := end.x.e.(pending := pending[1..]), phase := Driving, taken := end.x.taken + [pending[0]]));
    }
  }

  /** flush: the end of the program, and polls while acknowledgements are outstanding; it succeeds exactly when the side
      has flushed. */
  lemma FlushIsSteps(c: Connection, json: Json, l: Local) returns (polls: seq<Local>)
    requires Represents(c, l) && AllSendable(l.inn, json) && l.x.phase == Driving
    ensures ArePolls(polls) && CallStep(l, polls[0]) && polls[0].x.phase == Flushing
    ensures AllSendable(polls[|polls| - 1].inn, json) && polls[|polls| - 1].x.phase == Flushing
    ensures match PolledWhile(c, json, Unacknowledged)
            case Err(_) => NoPoll(polls[|polls| - 1])
            case Ok(c') => Represents(c', polls[|polls| - 1]) && (Flushed(polls[|polls| - 1].x) <==> c'.e.pending == [])
  {
    polls := LoopIsPolls(c, json, Unacknowledged, l.(x := l.x.(phase := Flushing)));
  }

  /** A completion that polls leave behind was held before, or is one of the messages polled. */
  lemma {:induction false} CompletionWasPolled(polls: seq<Local>, n: nat)
    requires ArePolls(polls) && n < |polls|
    ensures |polls[n].inn| <= |polls[0].inn| && polls[n].inn == polls[0].inn[|polls[0].inn| - |polls[n].inn|..]
    ensures polls[n].x.e.completion.Some? ==>
              polls[n].x.e.completion == polls[0].x.e.completion || Complete(polls[n].x.e.completion.value) in polls[0].inn
  {
    if n > 0 {
      CompletionWasPolled(polls, n - 1);
      assert PollStep(polls[n - 1], polls[(n - 1) + 1]);
      assert polls[n - 1].inn[0] in polls[0].inn;
    }
  }

  /** peer_completion: a flush, the wait for the completion, and its return. What it returns is a report it held before, or
      one that its peer put on the wire. */
  lemma PeerCompletionIsSteps(c: Connection, json: Json, l: Local)
    returns (flush: seq<Local>, polls: seq<Local>, end: Local)
    requires Represents(c, l) && AllSendable(l.inn, json) && l.x.phase == Driving
    ensures ArePolls(flush) && CallStep(l, flush[0]) && flush[0].x.phase == Flushing
    ensures match PolledWhile(c, json, Unacknowledged)
            case Err(_) => NoPoll(flush[|flush| - 1])
            case Ok(c') =>
              c'.e.pending == [] ==>
                && ArePolls(polls) && AwaitStep(flush[|flush| - 1], polls[0])
                && match PolledWhile(c', json, NotCompleted)
                   case Err(_) => NoPoll(polls[|polls| - 1])
                   case Ok(d) =>
                     && ReturnStep(polls[|polls| - 1], end) && Represents(d.(e := d.e.(completion := None)), end)
                     && end.x.report == d.e.completion
                     && (end.x.report == l.x.e.completion || Complete(d.e.completion.value) in l.inn)
  {
    flush := FlushIsSteps(c, json, l);
    polls, end := [], l;
    var flushed := flush[|flush| - 1];
    if Flushed(flushed.x) && PolledWhile(c, json, Unacknowledged).Ok? {
      var c' := PolledWhile(c, json, Unacknowledged).value;
      polls := LoopIsPolls(c', json, NotCompleted, flushed.(x := flushed.x.(phase := Awaiting)));
      end := polls[|polls| - 1];
      CompletionWasPolled(flush, |flush| - 1);
      CompletionWasPolled(polls, |polls| - 1);
      end := end.(x := end.x.(phase := Done, e := end.x.e.(completion := None), report := end.x.e.completion));
    }
  }

  // ---- what is in flight can be sent ----

  predicate AllFit(ms: seq<Message>) { forall i :: 0 <= i < |ms| ==> Fits(ms[i]) }

  predicate CallFits(x: Side) { x.phase.InSend? ==> |x.phase.payload| <= MAX_RUNTIME_MESSAGE_BYTES }

  predicate Fitting(l: Local) { AllFit(l.inn) && AllFit(l.out) && CallFits(l.x) }

  lemma StepKeepsFitting(r: Role, l: Local, l': Local)
    requires Fitting(l) && SideStep(r, l, l')
    ensures Fitting(l')
  {
  }

  /** Every message in flight, in every state of every run, is within its size bound, so a peer's envelopes are
      sendable as soon as its report is JSON. */
  lemma {:induction false} EverythingInFlightFits(run: seq<System>, n: nat)
    requires IsRun(run) && n < |run|
    ensures Fitting(LocalOf(run[n], RoleA)) && Fitting(LocalOf(run[n], RoleB))
  {
    if n > 0 {
      hide SideStep, AllFit;
      EverythingInFlightFits(run, n - 1);
      assert Next(run[n - 1], run[(n - 1) + 1]);
      var s, s' := run[n - 1], run[n];
      if Step(s, RoleA, s') {
        StepKeepsFitting(RoleA, LocalOf(s, RoleA), LocalOf(s', RoleA));
      } else {
        StepKeepsFitting(RoleB, LocalOf(s, RoleB), LocalOf(s', RoleB));
      }
    }
  }
}
