/** Two endpoints joined by ordered channels, in every interleaving of their steps. */
module DuplexSystem {
  import opened Results
  import opened Bytes
  import opened Duplex

  datatype Role = RoleA | RoleB

  function Other(r: Role): Role { if r.RoleA? then RoleB else RoleA }

  /** A side drives its program, between calls or inside one, and then flushes. A awaits B's completion and is done; B
      sends its completion and is done. */
  datatype Phase = Driving | InSend(payload: Payload) | InReceive(expectedBytes: nat) | Flushing | Awaiting | Done

  /** An endpoint with the payloads its program has sent and taken so far, and the report it sent or was returned. */
  datatype Side = Side(e: Endpoint, phase: Phase, log: seq<Payload>, taken: seq<Payload>, report: Option<Payload>)

  datatype System = System(a: Side, b: Side, ab: seq<Message>, ba: seq<Message>)

  const START_SIDE := Side(START, Driving, [], [], None)
  const INITIAL := System(START_SIDE, START_SIDE, [], [])

  // ---- the steps of one side, between the channel it reads and the channel it writes ----

  datatype Local = Local(x: Side, inn: seq<Message>, out: seq<Message>)

  /** The program makes its next call, or has no more to make. */
  predicate CallStep(l: Local, l': Local) {
    && l.x.phase == Driving && l' == l.(x := l.x.(phase := l'.x.phase))
    && match l'.x.phase
       case InSend(payload) => |payload| <= MAX_RUNTIME_MESSAGE_BYTES
       case InReceive(_) => true
       case Flushing => true
       case _ => false
  }

  /** send has credit, and returns. */
  predicate SendStep(l: Local, l': Local) {
    && l.x.phase.InSend? && !Full(l.x.e) && l.x.e.sent + 1 < TWO32
    && var payload := l.x.phase.payload;
       l' == l.(x := l.x.(e := l.x.e.(sent := l.x.e.sent + 1), phase := Driving, log := l.x.log + [payload]),
                out := l.out + [Data(l.x.e.sent, payload)])
  }

  /** The loops that poll: for credit, for a message, for acknowledgements, for the completion. */
  predicate Waiting(x: Side) {
    match x.phase
    case Driving => false
    case InSend(_) => Full(x.e)
    case InReceive(_) => Idle(x.e)
    case Flushing => Unacknowledged(x.e)
    case Awaiting => NotCompleted(x.e)
    case Done => false
  }

  predicate PollStep(l: Local, l': Local) {
    && Waiting(l.x) && l.inn != []
    && var r := Accept(l.x.e, l.inn[0]);
       r.Ok? && l' == Local(l.x.(e := r.value.0), l.inn[1..], l.out + r.value.1)
  }

  /** receive has a message of the length the program expects, and returns. */
  predicate TakeStep(l: Local, l': Local) {
    && l.x.phase.InReceive? && l.x.e.pending != [] && |l.x.e.pending[0]| == l.x.phase.expectedBytes
    && var (first, rest) := (l.x.e.pending[0], l.x.e.pending[1..]);
       l' == l.(x := l.x.(e := l.x.e.(pending := rest), phase := Driving, taken := l.x.taken + [first]))
  }

  /** flush has returned. */
  predicate Flushed(x: Side) { x.phase == Flushing && !Unacknowledged(x.e) && x.e.pending == [] }

  predicate AwaitStep(l: Local, l': Local) { Flushed(l.x) && l' == l.(x := l.x.(phase := Awaiting)) }

  /** peer_completion returns. */
  predicate ReturnStep(l: Local, l': Local) {
    && l.x.phase == Awaiting && l.x.e.completion.Some?
    && l' == l.(x := l.x.(phase := Done, e := l.x.e.(completion := None), report := l.x.e.completion))
  }

  predicate CompleteStep(l: Local, l': Local, report: Payload) {
    && Flushed(l.x) && Fits(Complete(report))
    && l' == l.(x := l.x.(phase := Done, report := Some(report)), out := l.out + [Complete(report)])
  }

  ghost predicate SideStep(r: Role, l: Local, l': Local) {
    || CallStep(l, l') || SendStep(l, l') || PollStep(l, l') || TakeStep(l, l')
    || (r.RoleA? && (AwaitStep(l, l') || ReturnStep(l, l')))
    || (r.RoleB? && exists report :: CompleteStep(l, l', report))
  }

  /** Between calls and when it is done a side reads nothing; in a call it reads only for lack of what it waits for, and
      one message at a time. */
  lemma OnlyLackReads(r: Role, l: Local, l': Local)
    requires SideStep(r, l, l') && l'.inn != l.inn
    ensures l.inn != [] && l'.inn == l.inn[1..] && l'.x.phase == l.x.phase
    ensures match l.x.phase
            case InSend(_) => l.x.e.sent >= l.x.e.acknowledged + 8
            case InReceive(_) => l.x.e.pending == []
            case Flushing => l.x.e.sent != l.x.e.acknowledged
            case Awaiting => l.x.e.completion == None
            case _ => false
  {
  }

  // ---- the steps of the pair ----

  function LocalOf(s: System, r: Role): Local {
    if r.RoleA? then Local(s.a, s.ba, s.ab) else Local(s.b, s.ab, s.ba)
  }

  function SideOf(s: System, r: Role): Side { LocalOf(s, r).x }

  ghost predicate Step(s: System, r: Role, s': System) {
    SideOf(s', Other(r)) == SideOf(s, Other(r)) && SideStep(r, LocalOf(s, r), LocalOf(s', r))
  }

  ghost predicate Next(s: System, s': System) { Step(s, RoleA, s') || Step(s, RoleB, s') }

  ghost predicate IsPath(path: seq<System>) {
    path != [] && forall i :: 0 <= i < |path| - 1 ==> Next(path[i], path[i + 1])
  }

  ghost predicate IsRun(run: seq<System>) { IsPath(run) && run[0] == INITIAL }

  // ---- what is in flight ----

  datatype Kind = IsData | IsAck | IsComplete

  function KindOf(m: Message): Kind {
    match m
    case Data(_, _) => IsData
    case Ack(_) => IsAck
    case Complete(_) => IsComplete
  }

  /** The messages of one kind in a channel, in order. */
  function Only(channel: seq<Message>, k: Kind): (r: seq<Message>)
    ensures |r| <= |channel|
  {
    if channel == [] then []
    else Part(channel[0], k) + Only(channel[1..], k)
  }

  /** What a message adds to the messages of one kind. */
  function Part(m: Message, k: Kind): seq<Message> { if KindOf(m) == k then [m] else [] }

  lemma OnlyUnfold(channel: seq<Message>, k: Kind)
    ensures channel == [] ==> Only(channel, k) == []
    ensures channel != [] ==> Only(channel, k) == Part(channel[0], k) + Only(channel[1..], k)
  {
  }

  lemma Regroup<T>(a: seq<T>, b: seq<T>, c: seq<T>)
    ensures a + (b + c) == (a + b) + c
  {
  }

  lemma {:induction false} OnlyAppend(channel: seq<Message>, m: Message, k: Kind)
    ensures Only(channel + [m], k) == Only(channel, k) + Part(m, k)
  {
    hide Only, Part;
    OnlyUnfold(channel, k);
    OnlyUnfold(channel + [m], k);
    if channel == [] {
      assert (channel + [m])[1..] == channel;
    } else {
      OnlyAppend(channel[1..], m, k);
      assert (channel + [m])[1..] == channel[1..] + [m];
      Regroup(Part(channel[0], k), Only(channel[1..], k), Part(m, k));
    }
  }

  lemma OnlyPop(channel: seq<Message>, k: Kind)
    requires channel != []
    ensures if KindOf(channel[0]) == k
            then Only(channel, k) != [] && Only(channel, k)[0] == channel[0] && Only(channel[1..], k) == Only(channel, k)[1..]
            else Only(channel[1..], k) == Only(channel, k)
  {
  }

  // ---- the invariant of one direction ----

  /** What holds between a sender and a receiver: every payload is taken, pending, in flight or unsent, in
      order, and every unacknowledged one is a DATA or an ACK in flight. */
  ghost predicate Flow(s: Side, r: Side, forth: seq<Message>, back: seq<Message>) {
    && |s.log| == s.e.sent < TWO32
    && s.e.acknowledged <= r.e.nextReceived <= s.e.sent <= s.e.acknowledged + CREDIT_WINDOW
    && r.taken + r.e.pending == s.log[..r.e.nextReceived]
    && InFlightData(s, r, Only(forth, IsData))
    && InFlightAcks(s, r, Only(back, IsAck))
  }

  ghost predicate InFlightData(s: Side, r: Side, datas: seq<Message>)
    requires r.e.nextReceived <= s.e.sent == |s.log| < TWO32
  {
    && |datas| == s.e.sent - r.e.nextReceived
    && forall i :: 0 <= i < |datas| ==> datas[i] == Data(r.e.nextReceived + i, s.log[r.e.nextReceived + i])
  }

  ghost predicate InFlightAcks(s: Side, r: Side, acks: seq<Message>)
    requires s.e.acknowledged <= r.e.nextReceived <= s.e.sent < TWO32
  {
    && |acks| == r.e.nextReceived - s.e.acknowledged
    && forall i :: 0 <= i < |acks| ==> acks[i] == Ack(s.e.acknowledged + 1 + i)
  }

  lemma SenderSends(l: Local, l': Local, y: Side)
    requires Flow(l.x, y, l.out, l.inn) && SendStep(l, l')
    ensures Flow(l'.x, y, l'.out, l'.inn)
  {
    hide Only;
    OnlyAppend(l.out, Data(l.x.e.sent, l.x.phase.payload), IsData);
    assert l'.x.log[..y.e.nextReceived] == l.x.log[..y.e.nextReceived];
  }

  lemma ReceiverSends(l: Local, l': Local, y: Side)
    requires Flow(y, l.x, l.inn, l.out) && SendStep(l, l')
    ensures Flow(y, l'.x, l'.inn, l'.out)
  {
    hide Only;
    OnlyAppend(l.out, Data(l.x.e.sent, l.x.phase.payload), IsAck);
  }

  /** The sender polls: an acknowledgement advances it, anything else leaves this direction alone, except that
      data is acknowledged in the other channel. */
  lemma SenderPolls(l: Local, l': Local, y: Side)
    requires Flow(l.x, y, l.out, l.inn) && PollStep(l, l')
    ensures Flow(l'.x, y, l'.out, l'.inn)
  {
    hide Only;
    OnlyPop(l.inn, IsAck);
    match l.inn[0]
    case Data(n, payload) =>
      OnlyAppend(l.out, Ack(l.x.e.nextReceived + 1), IsData);
    case Ack(n) =>
      assert l'.out == l.out;
    case Complete(report) =>
      assert l'.out == l.out;
  }

  lemma ReceiverPolls(l: Local, l': Local, y: Side)
    requires Flow(y, l.x, l.inn, l.out) && PollStep(l, l')
    ensures Flow(y, l'.x, l'.inn, l'.out)
  {
    hide Only;
    OnlyPop(l.inn, IsData);
    match l.inn[0]
    case Data(n, payload) =>
      var x, x' := l.x, l'.x;
      OnlyAppend(l.out, Ack(x.e.nextReceived + 1), IsAck);
      assert y.log[..x'.e.nextReceived] == y.log[..x.e.nextReceived] + [y.log[x.e.nextReceived]];
      assert x.taken + (x.e.pending + [payload]) == (x.taken + x.e.pending) + [payload];
    case Ack(n) =>
      assert l'.out == l.out;
    case Complete(report) =>
      assert l'.out == l.out;
  }

  lemma ReceiverTakes(l: Local, l': Local, y: Side)
    requires Flow(y, l.x, l.inn, l.out) && TakeStep(l, l')
    ensures Flow(y, l'.x, l'.inn, l'.out)
  {
    hide Only;
    assert l'.x.taken + l'.x.e.pending == l.x.taken + l.x.e.pending;
  }

  lemma SenderTakes(l: Local, l': Local, y: Side)
    requires Flow(l.x, y, l.out, l.inn) && TakeStep(l, l')
    ensures Flow(l'.x, y, l'.out, l'.inn)
  {
    hide Only;
  }

  lemma CompletionIsNoTraffic(l: Local, l': Local, report: Payload)
    requires CompleteStep(l, l', report)
    ensures Only(l'.out, IsData) == Only(l.out, IsData) && Only(l'.out, IsAck) == Only(l.out, IsAck)
    ensures Only(l'.out, IsComplete) == Only(l.out, IsComplete) + [Complete(report)]
  {
    OnlyAppend(l.out, Complete(report), IsData);
    OnlyAppend(l.out, Complete(report), IsAck);
    OnlyAppend(l.out, Complete(report), IsComplete);
  }

  /** Flow reads only the counters, the logs and the queues, and the data and acknowledgements in flight. */
  predicate SameTraffic(x: Side, x': Side) {
    && x.log == x'.log && x.taken == x'.taken && x.e.pending == x'.e.pending
    && x.e.sent == x'.e.sent && x.e.acknowledged == x'.e.acknowledged && x.e.nextReceived == x'.e.nextReceived
  }

  lemma FlowReadsTraffic(l: Local, l': Local, y: Side)
    requires Flow(l.x, y, l.out, l.inn) && Flow(y, l.x, l.inn, l.out) && SameTraffic(l.x, l'.x) && l'.inn == l.inn
    requires Only(l'.out, IsData) == Only(l.out, IsData) && Only(l'.out, IsAck) == Only(l.out, IsAck)
    ensures Flow(l'.x, y, l'.out, l'.inn) && Flow(y, l'.x, l'.inn, l'.out)
  {
    hide Only;
  }

  /** A step of one side keeps the direction it sends in and the direction it receives in. */
  lemma SideStepKeepsFlow(r: Role, l: Local, l': Local, y: Side)
    requires Flow(l.x, y, l.out, l.inn) && Flow(y, l.x, l.inn, l.out) && SideStep(r, l, l')
    ensures Flow(l'.x, y, l'.out, l'.inn) && Flow(y, l'.x, l'.inn, l'.out)
  {
    hide Flow, Only, PollStep, SendStep, TakeStep;
    if SendStep(l, l') {
      SenderSends(l, l', y);
      ReceiverSends(l, l', y);
    } else if PollStep(l, l') {
      SenderPolls(l, l', y);
      ReceiverPolls(l, l', y);
    } else if TakeStep(l, l') {
      SenderTakes(l, l', y);
      ReceiverTakes(l, l', y);
    } else {
      if report :| CompleteStep(l, l', report) { CompletionIsNoTraffic(l, l', report); }
      FlowReadsTraffic(l, l', y);
    }
  }

  // ---- completion ----

  function OneIf(b: bool): nat { if b then 1 else 0 }

  /** Exactly one completion exists once B is done: in flight, held by A, or returned by A. */
  ghost predicate Completion(s: System) {
    && Only(s.ab, IsComplete) == [] && s.b.e.completion.None? && s.b.phase != Awaiting
    && (s.b.phase == Done ==> !Unacknowledged(s.b.e) && s.b.e.pending == [])
    && (s.a.phase == Awaiting || s.a.phase == Done ==> !Unacknowledged(s.a.e))
    && |Only(s.ba, IsComplete)| + OneIf(s.a.e.completion.Some? || s.a.phase == Done) == OneIf(s.b.phase == Done)
    && Reports(s.b.report, Only(s.ba, IsComplete), s.a)
  }

  /** What is in flight, held or returned as B's report is what B sent. */
  predicate Reports(sent: Option<Payload>, completes: seq<Message>, a: Side) {
    && (completes != [] ==> sent.Some? && completes[0] == Complete(sent.value))
    && (a.e.completion.Some? ==> a.e.completion == sent)
    && (a.phase == Done ==> a.report.Some? && a.report == sent)
  }

  ghost predicate Invariant(s: System) {
    Flow(s.a, s.b, s.ab, s.ba) && Flow(s.b, s.a, s.ba, s.ab) && Completion(s)
  }

  /** How the steps that both sides share touch completion: no completion is sent, and only polling removes one. */
  lemma SharedStepAndCompletion(l: Local, l': Local)
    requires CallStep(l, l') || SendStep(l, l') || PollStep(l, l') || TakeStep(l, l')
    requires l.x.e.acknowledged <= l.x.e.sent
    ensures Only(l'.out, IsComplete) == Only(l.out, IsComplete)
    ensures l.x.phase != Done && l'.x.phase != Done && (l'.x.phase == Awaiting <==> l.x.phase == Awaiting)
    ensures |Only(l'.inn, IsComplete)| + OneIf(l'.x.e.completion.Some?)
         == |Only(l.inn, IsComplete)| + OneIf(l.x.e.completion.Some?)
    ensures Only(l.inn, IsComplete) == [] ==> l'.x.e.completion == l.x.e.completion && Only(l'.inn, IsComplete) == []
    ensures l.x.phase == Awaiting && !Unacknowledged(l.x.e) ==> !Unacknowledged(l'.x.e)
    ensures l'.x.report == l.x.report
    ensures l'.x.e.completion == l.x.e.completion
            || (Only(l.inn, IsComplete) != [] && l'.x.e.completion.Some?
                && Only(l.inn, IsComplete)[0] == Complete(l'.x.e.completion.value))
    ensures Only(l'.inn, IsComplete) == Only(l.inn, IsComplete)
            || (Only(l.inn, IsComplete) != [] && Only(l'.inn, IsComplete) == Only(l.inn, IsComplete)[1..])
  {
    hide Only;
    if SendStep(l, l') {
      OnlyAppend(l.out, Data(l.x.e.sent, l.x.phase.payload), IsComplete);
    } else if PollStep(l, l') {
      OnlyPop(l.inn, IsComplete);
      PollSendsNoCompletion(l, l');
    }
  }

  lemma PollSendsNoCompletion(l: Local, l': Local)
    requires PollStep(l, l')
    ensures Only(l'.out, IsComplete) == Only(l.out, IsComplete)
  {
    if l.inn[0].Data? {
      OnlyAppend(l.out, Ack(l.x.e.nextReceived + 1), IsComplete);
    } else {
      assert l'.out == l.out;
    }
  }

  lemma AStepKeepsCompletion(s: System, s': System)
    requires Invariant(s) && Step(s, RoleA, s')
    ensures Completion(s')
  {
    var l, l' := LocalOf(s, RoleA), LocalOf(s', RoleA);
    assert s.a.e.acknowledged <= s.a.e.sent;
    hide Flow, Only, CallStep, SendStep, PollStep, TakeStep;
    if !AwaitStep(l, l') && !ReturnStep(l, l') { SharedStepAndCompletion(l, l'); }
  }

  lemma BStepKeepsCompletion(s: System, s': System)
    requires Invariant(s) && Step(s, RoleB, s')
    ensures Completion(s')
  {
    var l, l' := LocalOf(s, RoleB), LocalOf(s', RoleB);
    assert s.b.e.acknowledged <= s.b.e.sent;
    hide Flow, Only, CallStep, SendStep, PollStep, TakeStep;
    if report :| CompleteStep(l, l', report) {
      CompletionIsNoTraffic(l, l', report);
    } else {
      SharedStepAndCompletion(l, l');
    }
  }

  lemma StepKeepsInvariant(s: System, r: Role, s': System)
    requires Invariant(s) && Step(s, r, s')
    ensures Invariant(s')
  {
    if r.RoleA? { AStepKeepsCompletion(s, s'); } else { BStepKeepsCompletion(s, s'); }
    hide Flow, SideStep, Completion;
    SideStepKeepsFlow(r, LocalOf(s, r), LocalOf(s', r), SideOf(s, Other(r)));
  }

  lemma NextKeepsInvariant(s: System, s': System)
    requires Invariant(s) && Next(s, s')
    ensures Invariant(s')
  {
    hide Invariant, Step;
    if Step(s, RoleA, s') { StepKeepsInvariant(s, RoleA, s'); } else { StepKeepsInvariant(s, RoleB, s'); }
  }

  /** The invariant holds in every state of every run. */
  lemma {:induction false} EveryStateIsGood(run: seq<System>, n: nat)
    requires IsRun(run) && n < |run|
    ensures Invariant(run[n])
  {
    hide Next;
    if n > 0 {
      EveryStateIsGood(run, n - 1);
      assert Next(run[n - 1], run[(n - 1) + 1]);
      NextKeepsInvariant(run[n - 1], run[n]);
    }
  }

  // ---- what follows ----

  /** The counters of both directions, and what was delivered. */
  lemma WindowAndOrder(run: seq<System>, n: nat)
    requires IsRun(run) && n < |run|
    ensures var s := run[n];
            && s.a.e.acknowledged <= s.b.e.nextReceived <= s.a.e.sent <= s.a.e.acknowledged + 8
            && s.b.e.acknowledged <= s.a.e.nextReceived <= s.b.e.sent <= s.b.e.acknowledged + 8
            && s.b.taken + s.b.e.pending <= s.a.log && s.a.taken + s.a.e.pending <= s.b.log
  {
    EveryStateIsGood(run, n);
  }

  /** A side's unacknowledged messages are all in flight, as data or as acknowledgements. */
  lemma Conservation(run: seq<System>, n: nat)
    requires IsRun(run) && n < |run|
    ensures var s := run[n];
            && s.a.e.sent - s.a.e.acknowledged == |Only(s.ab, IsData)| + |Only(s.ba, IsAck)|
            && s.b.e.sent - s.b.e.acknowledged == |Only(s.ba, IsData)| + |Only(s.ab, IsAck)|
  {
    EveryStateIsGood(run, n);
  }

  /** The one check that can refuse a message between honest endpoints is the bound on pending messages: the
      sequence, acknowledgement and completion checks never do. */
  lemma OnlyPendingRefuses(run: seq<System>, n: nat, r: Role)
    requires IsRun(run) && n < |run|
    ensures var l := LocalOf(run[n], r);
            l.inn != [] && Waiting(l.x) ==> (Accept(l.x.e, l.inn[0]).Err? <==> l.inn[0].Data? && |l.x.e.pending| >= 8)
  {
    EveryStateIsGood(run, n);
    HeadIsAccepted(run[n], r);
  }

  lemma HeadIsAccepted(s: System, r: Role)
    requires Invariant(s)
    ensures var l := LocalOf(s, r);
            l.inn != [] && Waiting(l.x) ==> (Accept(l.x.e, l.inn[0]).Err? <==> l.inn[0].Data? && |l.x.e.pending| >= 8)
  {
    var l := LocalOf(s, r);
    if l.inn != [] {
      HeadIsExpected(SideOf(s, Other(r)), l.x, l.inn, l.out);
      OnlyPop(l.inn, IsComplete);
    }
    hide Flow, Only;
  }

  lemma HeadIsExpected(s: Side, r: Side, forth: seq<Message>, back: seq<Message>)
    requires Flow(s, r, forth, back) && Flow(r, s, back, forth) && forth != []
    ensures forth[0].Data? ==> forth[0].sequence == r.e.nextReceived && r.e.nextReceived + 1 < TWO32
    ensures forth[0].Ack? ==> forth[0].acknowledged == r.e.acknowledged + 1 && forth[0].acknowledged <= r.e.sent
  {
    if forth[0].Data? {
      assert Only(forth, IsData)[0] == forth[0];
    } else if forth[0].Ack? {
      assert Only(forth, IsAck)[0] == forth[0];
    }
  }

  /** The report that A's peer_completion returns is the one B sent. */
  lemma TheReportIsReturned(run: seq<System>, n: nat)
    requires IsRun(run) && n < |run| && run[n].a.phase == Done
    ensures run[n].a.report.Some? && run[n].a.report == run[n].b.report
  {
    EveryStateIsGood(run, n);
  }

  /** B's report is what its completion step put on the wire, and never changes. */
  lemma {:induction false} TheReportWasSent(run: seq<System>, n: nat) returns (i: nat)
    requires IsRun(run) && n < |run| && run[n].b.report.Some?
    ensures i < n && CompleteStep(LocalOf(run[i], RoleB), LocalOf(run[i + 1], RoleB), run[n].b.report.value)
  {
    hide Next, CompleteStep;
    assert n > 0;
    assert Next(run[n - 1], run[(n - 1) + 1]);
    if run[n - 1].b.report == run[n].b.report {
      i := TheReportWasSent(run, n - 1);
    } else {
      ReportStep(run[n - 1], run[n]);
      i := n - 1;
    }
  }

  lemma ReportStep(s: System, s': System)
    requires Next(s, s') && s'.b.report != s.b.report
    ensures s'.b.report.Some? && CompleteStep(LocalOf(s, RoleB), LocalOf(s', RoleB), s'.b.report.value)
  {
  }

  /** When A's peer_completion has returned, every message either way was received, B has taken all of A's,
      and B's last acknowledgement has arrived. */
  lemma CompletionMeansDelivered(run: seq<System>, n: nat)
    requires IsRun(run) && n < |run| && run[n].a.phase == Done
    ensures var s := run[n];
            && s.b.phase == Done
            && s.b.e.nextReceived == s.a.e.sent == s.a.e.acknowledged && s.b.taken == s.a.log
            && s.a.e.nextReceived == s.b.e.sent == s.b.e.acknowledged && s.a.taken + s.a.e.pending == s.b.log
  {
    EveryStateIsGood(run, n);
    var s := run[n];
    assert s.a.log[..s.a.e.sent] == s.a.log && s.b.log[..s.b.e.sent] == s.b.log;
  }
}
