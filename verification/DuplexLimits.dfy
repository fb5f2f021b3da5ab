/** Four runs of honest endpoints that show where the transport's guarantees stop. */
module DuplexLimits {
  import opened Results
  import opened Bytes
  import opened Duplex
  import opened DuplexSystem
  import opened DuplexProgress

  ghost predicate Reachable(s: System) {
    exists run :: IsRun(run) && run[|run| - 1] == s
  }

  lemma RunTo(s: System) returns (run: seq<System>)
    requires Reachable(s)
    ensures IsRun(run) && run[|run| - 1] == s
  {
    run :| IsRun(run) && run[|run| - 1] == s;
  }

  lemma InitialIsReachable()
    ensures Reachable(INITIAL)
  {
    assert IsRun([INITIAL]);
  }

  /** A step of one side, to what it sees after it. */
  lemma StepIsReachable(s: System, r: Role, l: Local, s': System)
    requires Reachable(s) && SideStep(r, LocalOf(s, r), l) && s' == WithLocal(s, r, l)
    ensures Reachable(s')
  {
    hide SideStep;
    SideMoves(s, r, l);
    hide Next;
    var run :| IsRun(run) && run[|run| - 1] == s;
    var longer := Extend(run, s');
    assert longer[|longer| - 1] == s';
  }

  const SENDING := InSend([])

  /** B, having sent nothing but an empty report. */
  const DONE_SIDE := START_SIDE.(phase := Done, report := Some([]))

  lemma Calls(s: System, r: Role, phase: Phase)
    requires Reachable(s) && SideOf(s, r).phase == Driving && (phase == SENDING || phase == Flushing || phase.InReceive?)
    ensures var l := LocalOf(s, r); Reachable(WithLocal(s, r, l.(x := l.x.(phase := phase))))
  {
    hide Reachable;
    var l := LocalOf(s, r);
    var l' := l.(x := l.x.(phase := phase));
    assert CallStep(l, l');
    StepIsReachable(s, r, l', WithLocal(s, r, l'));
  }

  /** The side after sending an empty payload, and after accepting a message. */
  function Sent(x: Side): Side { x.(e := x.e.(sent := x.e.sent + 1), phase := Driving, log := x.log + [[]]) }

  function Sending(x: Side): Side { Sent(x).(phase := SENDING) }

  function Accepting(x: Side, m: Message): Side
    requires Accept(x.e, m).Ok?
  {
    x.(e := Accept(x.e, m).value.0)
  }

  predicate CanSend(x: Side) { x.phase == SENDING && !Full(x.e) && x.e.sent + 1 < TWO32 }

  /** A side inside send sends. */
  lemma SendsOnce(s: System, r: Role)
    requires Reachable(s) && CanSend(SideOf(s, r))
    ensures var l := LocalOf(s, r); Reachable(WithLocal(s, r, Local(Sent(l.x), l.inn, l.out + [Data(l.x.e.sent, [])])))
  {
    hide Reachable;
    var l := LocalOf(s, r);
    var l' := Local(Sent(l.x), l.inn, l.out + [Data(l.x.e.sent, [])]);
    assert SendStep(l, l');
    StepIsReachable(s, r, l', WithLocal(s, r, l'));
  }

  /** A side inside send sends, and calls send again. */
  lemma ASends(s: System)
    requires Reachable(s) && CanSend(s.a)
    ensures Reachable(s.(a := Sending(s.a), ab := s.ab + [Data(s.a.e.sent, [])]))
  {
    hide Reachable;
    SendsOnce(s, RoleA);
    Calls(s.(a := Sent(s.a), ab := s.ab + [Data(s.a.e.sent, [])]), RoleA, SENDING);
  }

  lemma BSends(s: System)
    requires Reachable(s) && CanSend(s.b)
    ensures Reachable(s.(b := Sending(s.b), ba := s.ba + [Data(s.b.e.sent, [])]))
  {
    hide Reachable;
    SendsOnce(s, RoleB);
    Calls(s.(b := Sent(s.b), ba := s.ba + [Data(s.b.e.sent, [])]), RoleB, SENDING);
  }

  lemma APolls(s: System, rest: seq<Message>)
    requires Reachable(s) && Waiting(s.a) && s.ba != [] && rest == s.ba[1..] && Accept(s.a.e, s.ba[0]).Ok?
    ensures Reachable(System(Accepting(s.a, s.ba[0]), s.b, s.ab + Accept(s.a.e, s.ba[0]).value.1, rest))
  {
    hide Reachable;
    var l' := Local(Accepting(s.a, s.ba[0]), rest, s.ab + Accept(s.a.e, s.ba[0]).value.1);
    assert PollStep(LocalOf(s, RoleA), l');
    StepIsReachable(s, RoleA, l', WithLocal(s, RoleA, l'));
  }

  lemma BPolls(s: System, rest: seq<Message>)
    requires Reachable(s) && Waiting(s.b) && s.ab != [] && rest == s.ab[1..] && Accept(s.b.e, s.ab[0]).Ok?
    ensures Reachable(System(s.a, Accepting(s.b, s.ab[0]), rest, s.ba + Accept(s.b.e, s.ab[0]).value.1))
  {
    hide Reachable;
    var l' := Local(Accepting(s.b, s.ab[0]), rest, s.ba + Accept(s.b.e, s.ab[0]).value.1);
    assert PollStep(LocalOf(s, RoleB), l');
    StepIsReachable(s, RoleB, l', WithLocal(s, RoleB, l'));
  }

  // ---- the pending bound can refuse an honest message ----

  /** `n` empty payloads. */
  function Empties(n: nat): (r: seq<Payload>)
    ensures |r| == n && forall i :: 0 <= i < n ==> r[i] == []
  {
    seq(n, _ => [])
  }

  function Datas(from: nat, to: nat): (r: seq<Message>)
    requires from <= to < TWO32
    ensures |r| == to - from && forall i :: 0 <= i < |r| ==> r[i] == Data(from + i, [])
  {
    seq(to - from, i requires 0 <= i < to - from => Data(from + i, []))
  }

  function Acks(from: nat, to: nat): (r: seq<Message>)
    requires from <= to < TWO32
    ensures |r| == to - from && forall i :: 0 <= i < |r| ==> r[i] == Ack(from + i)
  {
    seq(to - from, i requires 0 <= i < to - from => Ack(from + i))
  }

  /** A side that only sends: it has sent and received so much and taken nothing. */
  function Hoarder(sent: nat, acknowledged: nat, received: nat): Side {
    Side(Endpoint(sent, acknowledged, received, Empties(received), None), SENDING, Empties(sent), [], None)
  }

  lemma EmptiesGrow(n: nat)
    ensures Empties(n + 1) == Empties(n) + [[]]
  {
  }

  lemma DatasGrow(from: nat, to: nat)
    requires from <= to && to + 1 < TWO32
    ensures Datas(from, to + 1) == Datas(from, to) + [Data(to, [])] && Datas(from, to + 1)[1..] == Datas(from + 1, to + 1)
    ensures from == to ==> Datas(from, to) == []
  {
  }

  lemma AcksGrow(from: nat, to: nat)
    requires from <= to && to + 1 < TWO32
    ensures Acks(from, to + 1) == Acks(from, to) + [Ack(to)] && Acks(from, to + 1)[1..] == Acks(from + 1, to + 1)
    ensures from == to ==> Acks(from, to) == []
  {
  }

  lemma Ends<T>(a: seq<T>, b: seq<T>, x: T)
    ensures a + (b + [x]) == (a + b) + [x] && a + [] == a == [] + a
    ensures a != [] ==> (a + b)[0] == a[0] && (a + b)[1..] == a[1..] + b
  {
  }

  lemma {:induction false} ASendsFirst(i: nat)
    requires i <= 8
    ensures Reachable(System(Hoarder(i, 0, 0), Hoarder(0, 0, 0), Datas(0, i), []))
  {
    hide Reachable, Datas;
    if i == 0 {
      InitialIsReachable();
      Calls(INITIAL, RoleA, SENDING);
      Calls(INITIAL.(a := START_SIDE.(phase := SENDING)), RoleB, SENDING);
      DatasGrow(0, 0);
    } else {
      ASendsFirst(i - 1);
      EmptiesGrow(i - 1);
      DatasGrow(0, i - 1);
      hide Empties;
      ASends(System(Hoarder(i - 1, 0, 0), Hoarder(0, 0, 0), Datas(0, i - 1), []));
    }
  }

  lemma {:induction false} ThenBSends(i: nat)
    requires i <= 8
    ensures Reachable(System(Hoarder(8, 0, 0), Hoarder(i, 0, 0), Datas(0, 8), Datas(0, i)))
  {
    hide Reachable, Datas;
    if i == 0 {
      ASendsFirst(8);
      DatasGrow(0, 0);
    } else {
      ThenBSends(i - 1);
      EmptiesGrow(i - 1);
      DatasGrow(0, i - 1);
      hide Empties;
      BSends(System(Hoarder(8, 0, 0), Hoarder(i - 1, 0, 0), Datas(0, 8), Datas(0, i - 1)));
    }
  }

  /** A, blocked on its ninth send, receives everything B sent. */
  lemma {:induction false} ThenAReceives(i: nat)
    requires i <= 8
    ensures Reachable(System(Hoarder(8, 0, i), Hoarder(8, 0, 0), Datas(0, 8) + Acks(1, i + 1), Datas(i, 8)))
  {
    hide Reachable, Datas, Acks;
    AcksGrow(1, if i == 0 then 1 else i);
    if i == 0 {
      ThenBSends(8);
      Ends(Datas(0, 8), [], Ack(0));
    } else {
      ThenAReceives(i - 1);
      EmptiesGrow(i - 1);
      DatasGrow(i - 1, 7);
      Ends(Datas(0, 8), Acks(1, i), Ack(i));
      hide Empties;
      APolls(System(Hoarder(8, 0, i - 1), Hoarder(8, 0, 0), Datas(0, 8) + Acks(1, i), Datas(i - 1, 8)), Datas(i, 8));
    }
  }

  /** B, blocked on its ninth send, receives everything A sent. */
  lemma {:induction false} ThenBReceives(i: nat)
    requires i <= 8
    ensures Reachable(System(Hoarder(8, 0, 8), Hoarder(8, 0, i), Datas(i, 8) + Acks(1, 9), Acks(1, i + 1)))
  {
    hide Reachable, Datas, Acks;
    AcksGrow(1, if i == 0 then 1 else i);
    if i == 0 {
      ThenAReceives(8);
      DatasGrow(8, 8);
    } else {
      ThenBReceives(i - 1);
      EmptiesGrow(i - 1);
      DatasGrow(i - 1, 7);
      Ends(Datas(i - 1, 8), Acks(1, 9), Ack(i));
      hide Empties;
      BPolls(System(Hoarder(8, 0, 8), Hoarder(8, 0, i - 1), Datas(i - 1, 8) + Acks(1, 9), Acks(1, i)), Datas(i, 8) + Acks(1, 9));
    }
  }

  /** A keeps sending as acknowledgements come in, and takes no message. */
  lemma {:induction false} ThenAKeepsSending(i: nat)
    requires i <= 8
    ensures Reachable(System(Hoarder(8 + i, i, 8), Hoarder(8, 0, 8), Acks(1, 9) + Datas(8, 8 + i), Acks(1 + i, 9)))
  {
    hide Reachable, Datas, Acks;
    if i == 0 {
      ThenBReceives(8);
      DatasGrow(8, 8);
      Ends(Acks(1, 9), [], Ack(0));
    } else {
      ThenAKeepsSending(i - 1);
      AcksGrow(i, 8);
      EmptiesGrow(7 + i);
      DatasGrow(8, 7 + i);
      Ends(Acks(1, 9), Datas(8, 7 + i), Data(7 + i, []));
      var b, ba, ab := Hoarder(8, 0, 8), Acks(1 + i, 9), Acks(1, 9) + Datas(8, 7 + i);
      Ends(ab, [], Ack(0));
      hide Empties;
      APolls(System(Hoarder(7 + i, i - 1, 8), b, ab, Acks(i, 9)), ba);
      ASends(System(Hoarder(7 + i, i, 8), b, ab, ba));
    }
  }

  /** B hears one acknowledgement, which lets it send its ninth message. */
  lemma ThenBSendsOneMore()
    ensures Reachable(System(Hoarder(16, 8, 8), Hoarder(9, 1, 8), Acks(2, 9) + Datas(8, 16), [Data(8, [])]))
  {
    hide Reachable, Datas, Acks;
    ThenAKeepsSending(8);
    AcksGrow(1, 8);
    AcksGrow(9, 9);
    EmptiesGrow(8);
    Ends(Acks(1, 9), Datas(8, 16), Ack(0));
    Ends([], [], Data(8, []));
    hide Empties;
    BPolls(System(Hoarder(16, 8, 8), Hoarder(8, 0, 8), Acks(1, 9) + Datas(8, 16), []), Acks(2, 9) + Datas(8, 16));
    BSends(System(Hoarder(16, 8, 8), Hoarder(8, 1, 8), Acks(2, 9) + Datas(8, 16), []));
    assert [] + [Data(8, [])] == [Data(8, [])];
  }

  /** Acknowledging on receipt rather than on taking means the window does not bound the queue: two endpoints
      that only send reach a state in which A, blocked on a full window, refuses B's next message. */
  lemma HonestMessageCanBeRefused() returns (s: System)
    ensures Reachable(s) && Waiting(s.a) && s.ba != [] && Accept(s.a.e, s.ba[0]).Err?
  {
    ThenBSendsOneMore();
    s := System(Hoarder(16, 8, 8), Hoarder(9, 1, 8), Acks(2, 9) + Datas(8, 16), [Data(8, [])]);
  }

  // ---- a sender that refuses data strands its peer ----

  /** A, having sent sixteen and been acknowledged eight, has taken `i` of the eight it received. */
  function Taker(i: nat): Side
    requires i <= 8
  {
    Side(Endpoint(16, 8, 8, Empties(8 - i), None), Driving, Empties(16), Empties(i), None)
  }

  lemma ThenAHasSentSixteen()
    ensures Reachable(System(Taker(0), Hoarder(8, 0, 8), Acks(1, 9) + Datas(8, 16), []))
  {
    hide Reachable, Datas, Acks;
    ThenAKeepsSending(7);
    AcksGrow(8, 8);
    AcksGrow(9, 9);
    EmptiesGrow(15);
    DatasGrow(8, 15);
    Ends(Acks(1, 9), Datas(8, 15), Data(15, []));
    var b, ab := Hoarder(8, 0, 8), Acks(1, 9) + Datas(8, 15);
    Ends(ab, [], Ack(0));
    APolls(System(Hoarder(15, 7, 8), b, ab, Acks(8, 9)), []);
    SendsOnce(System(Hoarder(15, 8, 8), b, ab, []), RoleA);
    assert Taker(0) == Sent(Hoarder(15, 8, 8));
  }

  lemma EmptiesShrink(n: nat)
    requires n > 0
    ensures Empties(n)[0] == [] && Empties(n)[1..] == Empties(n - 1)
  {
  }

  lemma {:induction false} ThenATakes(i: nat)
    requires i <= 8
    ensures Reachable(System(Taker(i), Hoarder(8, 0, 8), Acks(1, 9) + Datas(8, 16), []))
  {
    hide Reachable, Datas, Acks;
    if i == 0 {
      ThenAHasSentSixteen();
    } else {
      ThenATakes(i - 1);
      EmptiesShrink(9 - i);
      EmptiesGrow(i - 1);
      var s := System(Taker(i - 1), Hoarder(8, 0, 8), Acks(1, 9) + Datas(8, 16), []);
      Calls(s, RoleA, InReceive(0));
      var s' := s.(a := s.a.(phase := InReceive(0)));
      var l' := LocalOf(s', RoleA).(x := Taker(i));
      assert TakeStep(LocalOf(s', RoleA), l');
      StepIsReachable(s', RoleA, l', s.(a := Taker(i)));
    }
  }

  /** A, having taken those eight, calls send again, and has received `j` more. */
  function Sated(j: nat): Side { Side(Endpoint(16, 8, 8 + j, Empties(j), None), SENDING, Empties(16), Empties(8), None) }

  /** B keeps sending as acknowledgements come in, and takes no message. */
  lemma {:induction false} ThenBKeepsSending(i: nat)
    requires i <= 8
    ensures Reachable(System(Sated(0), Hoarder(8 + i, i, 8), Acks(1 + i, 9) + Datas(8, 16), Datas(8, 8 + i)))
  {
    hide Reachable, Datas, Acks;
    if i == 0 {
      ThenATakes(8);
      DatasGrow(8, 8);
      Calls(System(Taker(8), Hoarder(8, 0, 8), Acks(1, 9) + Datas(8, 16), []), RoleA, SENDING);
    } else {
      ThenBKeepsSending(i - 1);
      AcksGrow(i, 8);
      EmptiesGrow(7 + i);
      DatasGrow(8, 7 + i);
      Ends(Acks(i, 9), Datas(8, 16), Ack(0));
      Ends(Datas(8, 7 + i), [], Ack(0));
      var a, ba, ab := Sated(0), Datas(8, 7 + i), Acks(1 + i, 9) + Datas(8, 16);
      hide Empties;
      BPolls(System(a, Hoarder(7 + i, i - 1, 8), Acks(i, 9) + Datas(8, 16), ba), ab);
      BSends(System(a, Hoarder(7 + i, i, 8), ab, ba));
    }
  }

  /** A, blocked, receives what B sent. */
  lemma {:induction false} ThenAReceivesMore(i: nat)
    requires i <= 8
    ensures Reachable(System(Sated(i), Hoarder(16, 8, 8), Datas(8, 16) + Acks(9, 9 + i), Datas(8 + i, 16)))
  {
    hide Reachable, Datas, Acks;
    if i == 0 {
      ThenBKeepsSending(8);
      AcksGrow(9, 9);
      Ends(Datas(8, 16), [], Ack(0));
    } else {
      ThenAReceivesMore(i - 1);
      AcksGrow(9, 8 + i);
      EmptiesGrow(i - 1);
      DatasGrow(7 + i, 15);
      Ends(Datas(8, 16), Acks(9, 8 + i), Ack(8 + i));
      hide Empties;
      APolls(System(Sated(i - 1), Hoarder(16, 8, 8), Datas(8, 16) + Acks(9, 8 + i), Datas(7 + i, 16)), Datas(8 + i, 16));
    }
  }

  /** Both programs are still running, inside send: A waits for acknowledgements of data that B, with eight messages it
      has not taken, refuses. Neither side has anything else to do, and both stay where they are. */
  lemma SenderCanStrandItsPeer() returns (s: System)
    ensures Reachable(s) && s.a.phase == s.b.phase == SENDING && Stuck(s.a) && s.ba == []
    ensures Stuck(s.b) && s.ab != [] && s.ab[0].Data? && Accept(s.b.e, s.ab[0]).Err?
    ensures !CanBeServed(s, RoleA) && !CanBeServed(s, RoleB)
  {
    ThenAReceivesMore(8);
    DatasGrow(16, 16);
    s := System(Sated(8), Hoarder(16, 8, 8), Datas(8, 16) + Acks(9, 17), []);
    assert s.ab[0] == Datas(8, 16)[0];
    var run := RunTo(s);
    hide Datas, Reachable, CanBeServed, AckAfterData;
    StuckGoesOnIfHopeful(run, |run| - 1, RoleA);
    StuckGoesOnIfHopeful(run, |run| - 1, RoleB);
  }

  // ---- A can return with a message nobody took ----

  /** B has sent one message and A, which had nothing to do, is already past its flush. */
  lemma APassesItsFlush()
    ensures Reachable(System(START_SIDE.(phase := Awaiting), Sent(START_SIDE), [], [Data(0, [])]))
  {
    InitialIsReachable();
    hide Reachable;
    Calls(INITIAL, RoleB, SENDING);
    SendsOnce(INITIAL.(b := START_SIDE.(phase := SENDING)), RoleB);
    assert [] + [Data(0, [])] == [Data(0, [])];
    var s := System(START_SIDE, Sent(START_SIDE), [], [Data(0, [])]);
    Calls(s, RoleA, Flushing);
    var s' := s.(a := START_SIDE.(phase := Flushing));
    var l' := LocalOf(s.(a := START_SIDE.(phase := Awaiting)), RoleA);
    assert AwaitStep(LocalOf(s', RoleA), l');
    StepIsReachable(s', RoleA, l', s.(a := START_SIDE.(phase := Awaiting)));
  }

  /** The side `x` after receiving one empty message. */
  function Received(x: Side): Side { x.(e := x.e.(nextReceived := 1, pending := [[]])) }

  /** B, which sent one message and heard its acknowledgement. */
  function Heard(phase: Phase): Side { Sent(START_SIDE).(phase := phase, e := START.(sent := 1, acknowledged := 1)) }

  /** A receives the message, and B its acknowledgement. */
  lemma BFlushes()
    ensures Reachable(System(Received(START_SIDE.(phase := Awaiting)), Heard(Flushing), [], []))
  {
    APassesItsFlush();
    var a, b := START_SIDE.(phase := Awaiting), Sent(START_SIDE);
    Ends([Ack(1)], [], Ack(1));
    hide Reachable;
    assert a.e.pending + [[]] == [[]];
    APolls(System(a, b, [], [Data(0, [])]), []);
    Calls(System(Received(a), b, [Ack(1)], []), RoleB, Flushing);
    BPolls(System(Received(a), b.(phase := Flushing), [Ack(1)], []), []);
  }

  /** A step of a flushed B. */
  lemma BCompletes(s: System)
    requires Reachable(s) && Flushed(s.b) && s.ba == []
    ensures Reachable(s.(b := s.b.(phase := Done, report := Some([])), ba := [Complete([])]))
  {
    hide Reachable;
    var s' := s.(b := s.b.(phase := Done, report := Some([])), ba := [Complete([])]);
    assert CompleteStep(LocalOf(s, RoleB), LocalOf(s', RoleB), []);
    StepIsReachable(s, RoleB, LocalOf(s', RoleB), s');
  }

  /** A's peer_completion can return while a message from B still waits in A's queue: flush looked before the
      message came. */
  lemma ReturnCanLeaveMessages() returns (s: System)
    ensures Reachable(s) && s.a.phase == Done && s.a.e.pending != []
  {
    BFlushes();
    hide Reachable;
    var a, b := Received(START_SIDE.(phase := Awaiting)), Heard(Done).(report := Some([]));
    BCompletes(System(a, Heard(Flushing), [], []));
    Ends([], [], Complete([]));
    APolls(System(a, b, [], [Complete([])]), []);
    var s' := System(a.(e := a.e.(completion := Some([]))), b, [], []);
    s := System(a.(phase := Done, report := Some([])), b, [], []);
    assert ReturnStep(LocalOf(s', RoleA), LocalOf(s, RoleA));
    StepIsReachable(s', RoleA, LocalOf(s, RoleA), s);
  }

  // ---- a blocked sender can be left alone ----

  /** B is done before A begins. */
  lemma BIsDoneFirst()
    ensures Reachable(System(Hoarder(0, 0, 0), DONE_SIDE, [], [Complete([])]))
  {
    InitialIsReachable();
    hide Reachable;
    Calls(INITIAL, RoleA, SENDING);
    var s := INITIAL.(a := START_SIDE.(phase := SENDING));
    Calls(s, RoleB, Flushing);
    BCompletes(s.(b := START_SIDE.(phase := Flushing)));
  }

  lemma {:induction false} ThenASendsAlone(i: nat)
    requires i <= 8
    ensures Reachable(System(Hoarder(i, 0, 0), DONE_SIDE, Datas(0, i), [Complete([])]))
  {
    hide Reachable, Datas;
    if i == 0 {
      BIsDoneFirst();
      DatasGrow(0, 0);
    } else {
      ThenASendsAlone(i - 1);
      EmptiesGrow(i - 1);
      DatasGrow(0, i - 1);
      hide Empties;
      ASends(System(Hoarder(i - 1, 0, 0), DONE_SIDE, Datas(0, i - 1), [Complete([])]));
    }
  }

  lemma ThenAHearsTheCompletion()
    ensures var a := Hoarder(8, 0, 0);
            Reachable(System(a.(e := a.e.(completion := Some([]))), DONE_SIDE, Datas(0, 8), []))
  {
    hide Reachable, Datas;
    ThenASendsAlone(8);
    APolls(System(Hoarder(8, 0, 0), DONE_SIDE, Datas(0, 8), [Complete([])]), []);
    assert Datas(0, 8) + [] == Datas(0, 8);
  }

  /** B drives, flushes nothing and completes; A fills its window and then hears the completion. A is blocked, all it
      sent is in flight, and neither side polls anything: by AbandonedForEver, A stays blocked. */
  lemma BlockedSenderCanBeAbandoned() returns (s: System)
    ensures Reachable(s) && s.a.phase == SENDING && Stuck(s.a) && s.ba == [] && |Only(s.ab, IsData)| == 8
    ensures s.b.phase == Done && !CanBeServed(s, RoleA)
  {
    hide Only, Datas, Reachable, CanBeServed, AckAfterData, Empties;
    ThenAHearsTheCompletion();
    var a := Hoarder(8, 0, 0);
    s := System(a.(e := a.e.(completion := Some([]))), DONE_SIDE, Datas(0, 8), []);
    var run := RunTo(s);
    StuckIsServed(run, |run| - 1, RoleA);
    OnlyUnfold(s.ba, IsAck);
    StuckGoesOnIfHopeful(run, |run| - 1, RoleA);
  }
}
