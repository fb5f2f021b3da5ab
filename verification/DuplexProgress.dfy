/** When a waiting side gets its acknowledgement, and what is left when A returns. */
module DuplexProgress {
  import opened Results
  import opened Bytes
  import opened Duplex
  import opened DuplexSystem

  // ---- a side that cannot go on by itself ----

  /** Inside send with a full window, or flushing with acknowledgements outstanding. */
  predicate Stuck(x: Side) { (x.phase.InSend? && Full(x.e)) || (x.phase == Flushing && Unacknowledged(x.e)) }

  predicate Crowded(x: Side) { |x.e.pending| >= CREDIT_WINDOW }

  /** The side polls, and accepts what comes first. */
  predicate Delivers(l: Local) { Waiting(l.x) && l.inn != [] && Accept(l.x.e, l.inn[0]).Ok? }

  /** A stuck side accepts what comes first in its channel, unless that is data and it is crowded. With nothing in its
      channel, all it waits for is data that its peer has not received, eight messages when its window is full. */
  lemma StuckIsServed(run: seq<System>, n: nat, r: Role)
    requires IsRun(run) && n < |run| && Stuck(SideOf(run[n], r))
    ensures var l := LocalOf(run[n], r);
            && (l.inn != [] ==> (Delivers(l) <==> !(l.inn[0].Data? && Crowded(l.x))))
            && (l.inn == [] ==>
                  && |Only(l.out, IsData)| == l.x.e.sent - l.x.e.acknowledged > 0
                  && (Full(l.x.e) ==> |Only(l.out, IsData)| == CREDIT_WINDOW))
  {
    EveryStateIsGood(run, n);
    HeadIsAccepted(run[n], r);
  }

  // ---- what can follow a state ----

  ghost predicate Leads(s: System, s': System) {
    exists path :: IsPath(path) && path[0] == s && path[|path| - 1] == s'
  }

  lemma Stays(s: System)
    ensures Leads(s, s)
  {
    assert IsPath([s]);
  }

  lemma Extend(path: seq<System>, s: System) returns (longer: seq<System>)
    requires IsPath(path) && Next(path[|path| - 1], s)
    ensures IsPath(longer) && longer == path + [s]
  {
    hide Next;
    longer := path + [s];
    forall i | 0 <= i < |longer| - 1 ensures Next(longer[i], longer[i + 1]) {
      if i < |path| - 1 { assert Next(path[i], path[i + 1]); }
    }
  }

  lemma LeadsFurther(s: System, t: System, u: System)
    requires Next(s, t) && Leads(t, u)
    ensures Leads(s, u)
  {
    hide Next;
    var path :| IsPath(path) && path[0] == t && path[|path| - 1] == u;
    var longer := [s] + path;
    forall i | 0 <= i < |longer| - 1 ensures Next(longer[i], longer[i + 1]) {
      if i > 0 { assert Next(path[i - 1], path[(i - 1) + 1]); }
    }
    assert IsPath(longer) && longer[|longer| - 1] == u;
  }

  /** The system with one side and its channels replaced. */
  function WithLocal(s: System, r: Role, l: Local): System {
    if r.RoleA? then System(l.x, s.b, l.out, l.inn) else System(s.a, l.x, l.inn, l.out)
  }

  lemma SideMoves(s: System, r: Role, l: Local)
    requires SideStep(r, LocalOf(s, r), l)
    ensures Step(s, r, WithLocal(s, r, l)) && Next(s, WithLocal(s, r, l))
  {
    hide SideStep;
  }

  lemma Advance(s: System, r: Role, l: Local) returns (s': System)
    requires Invariant(s) && SideStep(r, LocalOf(s, r), l)
    ensures s' == WithLocal(s, r, l) && Next(s, s') && Invariant(s')
  {
    hide Invariant, SideStep;
    s' := WithLocal(s, r, l);
    SideMoves(s, r, l);
    NextKeepsInvariant(s, s');
  }

  // ---- when a stuck side can go on ----

  /** The side gets an acknowledgement in some continuation. */
  ghost predicate CanBeServed(s: System, r: Role) {
    exists s' :: Leads(s, s') && SideOf(s', r).e.acknowledged > SideOf(s, r).e.acknowledged
  }

  lemma ServedLater(s: System, s': System, r: Role)
    requires Next(s, s') && CanBeServed(s', r) && SideOf(s', r).e.acknowledged >= SideOf(s, r).e.acknowledged
    ensures CanBeServed(s, r)
  {
    hide Next, Leads;
    var t :| Leads(s', t) && SideOf(t, r).e.acknowledged > SideOf(s', r).e.acknowledged;
    LeadsFurther(s, s', t);
  }

  /** Some acknowledgement comes behind the first data. */
  predicate AckAfterData(inn: seq<Message>) {
    inn != [] && if inn[0].Data? then Only(inn[1..], IsAck) != [] else AckAfterData(inn[1..])
  }

  /** The messages of data that come before the first acknowledgement. */
  function DataBeforeAck(inn: seq<Message>): nat {
    if inn == [] || inn[0].Ack? then 0 else |Part(inn[0], IsData)| + DataBeforeAck(inn[1..])
  }

  /** Whether the peer `k.x` of a stuck side that has yet to poll `d` messages of data gets to the data that the stuck side
      waits on: it must not refuse it, nor end its flush before it, nor first send data of its own that is one too many. */
  predicate Receptive(peer: Role, x: Side, d: nat, k: Local) {
    match k.x.phase
    case Driving => true
    case InReceive(expected) => k.x.e.pending == [] || |k.x.e.pending[0]| == expected
    case InSend(_) =>
      if Full(k.x.e) && k.inn != [] && k.inn[0].Data? then !Crowded(k.x)
      else k.x.e.sent + 1 < TWO32 && |x.e.pending| + d < CREDIT_WINDOW
    case Flushing => !Crowded(k.x) && (d > 0 || AckAfterData(k.inn) || (peer.RoleA? && k.x.e.pending == []))
    case Awaiting => !Crowded(k.x)
    case Done => false
  }

  /** The stuck side has room for the data on its way to it, and an acknowledgement comes behind it or can still come. */
  ghost predicate Hopeful(s: System, r: Role) {
    var (l, peer) := (LocalOf(s, r), LocalOf(s, Other(r)));
    var d := DataBeforeAck(l.inn);
    && (d == 0 || |l.x.e.pending| + d <= CREDIT_WINDOW)
    && (Only(l.inn, IsAck) != [] || Receptive(Other(r), l.x, d, peer))
  }

  /** The side is stuck, and what it waits on has not reached its peer, which is not done; at most one message of data is
      in its own channel, and then it has room for it. */
  ghost predicate Waits(s: System, r: Role) {
    && Invariant(s) && Stuck(SideOf(s, r))
    && var (x, peer) := (SideOf(s, r), LocalOf(s, Other(r)));
       && peer.x.phase != Done && peer.x.e.completion.None? && Only(peer.inn, IsComplete) == []
       && Only(peer.inn, IsData) != [] && (peer.out == [] || (|peer.out| == 1 && peer.out[0].Data? && !Crowded(x)))
  }

  function AfterPoll(l: Local): Local
    requires Delivers(l)
  {
    Local(l.x.(e := Accept(l.x.e, l.inn[0]).value.0), l.inn[1..], l.out + Accept(l.x.e, l.inn[0]).value.1)
  }

  /** A stuck side that finds an acknowledgement takes it. */
  lemma AckServes(s: System, r: Role)
    requires Invariant(s) && Stuck(SideOf(s, r)) && LocalOf(s, r).inn != [] && LocalOf(s, r).inn[0].Ack?
    ensures CanBeServed(s, r)
  {
    hide Invariant, Leads, Next;
    HeadIsAccepted(s, r);
    var s' := Advance(s, r, AfterPoll(LocalOf(s, r)));
    Stays(s');
    LeadsFurther(s, s', s');
  }

  lemma DataThenAckServes(s: System, r: Role)
    requires Invariant(s) && Stuck(SideOf(s, r)) && !Crowded(SideOf(s, r))
    requires var inn := LocalOf(s, r).inn; |inn| == 2 && inn[0].Data? && inn[1].Ack?
    ensures CanBeServed(s, r)
  {
    hide Invariant, Next, CanBeServed;
    HeadIsAccepted(s, r);
    var s' := Advance(s, r, AfterPoll(LocalOf(s, r)));
    AckServes(s', r);
    ServedLater(s, s', r);
  }

  /** Once the peer takes the data from its channel, the acknowledgement gets through. */
  lemma DataServes(s: System, r: Role)
    requires Waits(s, r)
    requires var peer := LocalOf(s, Other(r)); Delivers(peer) && peer.inn[0].Data?
    ensures CanBeServed(s, r)
  {
    hide Invariant, Next, CanBeServed, Only;
    var peer := LocalOf(s, Other(r));
    var s' := Advance(s, Other(r), AfterPoll(peer));
    assert LocalOf(s', r).inn == peer.out + [Ack(peer.x.e.nextReceived + 1)];
    if peer.out == [] { AckServes(s', r); } else { DataThenAckServes(s', r); }
    ServedLater(s, s', r);
  }

  /** The peer polls an acknowledgement and all stays as it was. */
  lemma PeerPollsAck(s: System, r: Role) returns (s': System)
    requires Waits(s, r)
    requires var peer := LocalOf(s, Other(r)); Waiting(peer.x) && peer.inn != [] && peer.inn[0].Ack?
    ensures Next(s, s') && Waits(s', r) && SideOf(s', r) == SideOf(s, r)
    ensures var peer := LocalOf(s, Other(r));
            LocalOf(s', Other(r))
            == peer.(x := peer.x.(e := peer.x.e.(acknowledged := peer.x.e.acknowledged + 1)), inn := peer.inn[1..])
  {
    hide Invariant, Next, Only;
    var peer := LocalOf(s, Other(r));
    HeadIsAccepted(s, Other(r));
    OnlyPop(peer.inn, IsData);
    OnlyPop(peer.inn, IsComplete);
    s' := Advance(s, Other(r), AfterPoll(peer));
    assert peer.out + [] == peer.out;
  }

  /** Only data and acknowledgements are on their way to the peer. */
  lemma HeadKind(inn: seq<Message>)
    requires Only(inn, IsComplete) == [] && Only(inn, IsData) != []
    ensures inn != [] && (inn[0].Data? || inn[0].Ack?)
  {
    if inn != [] { OnlyPop(inn, IsComplete); }
  }

  lemma {:induction false} IdleReceiverServes(s: System, r: Role)
    requires Waits(s, r)
    requires var peer := LocalOf(s, Other(r)).x; peer.phase.InReceive? && peer.e.pending == []
    ensures CanBeServed(s, r)
    decreases |LocalOf(s, Other(r)).inn|
  {
    var peer := LocalOf(s, Other(r));
    HeadKind(peer.inn);
    HeadIsAccepted(s, Other(r));
    hide CanBeServed, Waits, Only, Next;
    if peer.inn[0].Data? {
      DataServes(s, r);
    } else {
      var s' := PeerPollsAck(s, r);
      IdleReceiverServes(s', r);
      ServedLater(s, s', r);
    }
  }

  /** A step of the peer that only changes its queue, what it took, or what it does next. */
  lemma PeerMoves(s: System, r: Role, k: Local) returns (s': System)
    requires Waits(s, r) && SideStep(Other(r), LocalOf(s, Other(r)), k)
    requires var peer := LocalOf(s, Other(r)); k.inn == peer.inn && k.out == peer.out && k.x.e.completion.None?
    requires k.x.phase != Done
    ensures s' == WithLocal(s, Other(r), k) && Next(s, s') && Waits(s', r)
  {
    hide Invariant, Next, Only, SideStep;
    s' := Advance(s, Other(r), k);
  }

  /** A peer that holds messages can receive them one by one, and then the data. */
  lemma {:induction false} DriverServes(s: System, r: Role)
    requires Waits(s, r) && SideOf(s, Other(r)).phase == Driving
    ensures CanBeServed(s, r)
    decreases |SideOf(s, Other(r)).e.pending|, 1
  {
    var peer := LocalOf(s, Other(r));
    var pending := peer.x.e.pending;
    var calls := peer.(x := peer.x.(phase := InReceive(if pending == [] then 0 else |pending[0]|)));
    assert CallStep(peer, calls) && peer.x.e.completion.None?;
    hide CanBeServed, Waits, Next, Only;
    var s' := PeerMoves(s, r, calls);
    if pending == [] { IdleReceiverServes(s', r); } else { TakerServes(s', r); }
    ServedLater(s, s', r);
  }

  lemma {:induction false} TakerServes(s: System, r: Role)
    requires Waits(s, r)
    requires var peer := SideOf(s, Other(r));
             peer.e.pending != [] && peer.phase == InReceive(|peer.e.pending[0]|)
    ensures CanBeServed(s, r)
    decreases |SideOf(s, Other(r)).e.pending|, 0
  {
    var peer := LocalOf(s, Other(r));
    var x := peer.x;
    var takes := peer.(x := x.(e := x.e.(pending := x.e.pending[1..]), phase := Driving, taken := x.taken + [x.e.pending[0]]));
    assert TakeStep(peer, takes) && x.e.completion.None?;
    hide CanBeServed, Waits, Next, Only;
    var s' := PeerMoves(s, r, takes);
    DriverServes(s', r);
    ServedLater(s, s', r);
  }

  /** A peer inside send, with credit, first sends. */
  lemma SenderServes(s: System, r: Role)
    requires Waits(s, r) && LocalOf(s, r).inn == [] && !Crowded(SideOf(s, r))
    requires var peer := SideOf(s, Other(r)); peer.phase.InSend? && !Full(peer.e) && peer.e.sent + 1 < TWO32
    ensures CanBeServed(s, r)
  {
    var peer := LocalOf(s, Other(r));
    var payload := peer.x.phase.payload;
    var x := peer.x.(e := peer.x.e.(sent := peer.x.e.sent + 1), phase := Driving, log := peer.x.log + [payload]);
    var sends := Local(x, peer.inn, peer.out + [Data(peer.x.e.sent, payload)]);
    assert SendStep(peer, sends);
    hide Invariant, Next, CanBeServed, Only;
    var s' := Advance(s, Other(r), sends);
    DriverServes(s', r);
    ServedLater(s, s', r);
  }

  lemma BlockedSenderServes(s: System, r: Role)
    requires Waits(s, r) && LocalOf(s, r).inn == []
    requires var peer := LocalOf(s, Other(r)); peer.x.phase.InSend? && Receptive(Other(r), SideOf(s, r), 0, peer)
    ensures CanBeServed(s, r)
  {
    var peer := LocalOf(s, Other(r));
    HeadKind(peer.inn);
    HeadIsAccepted(s, Other(r));
    CreditIsBounded(s, Other(r));
    hide CanBeServed, Waits, Only, Next;
    if !Full(peer.x.e) {
      SenderServes(s, r);
    } else if peer.inn[0].Data? {
      DataServes(s, r);
    } else {
      var s' := PeerPollsAck(s, r);
      SenderServes(s', r);
      ServedLater(s, s', r);
    }
  }

  lemma CreditIsBounded(s: System, r: Role)
    requires Invariant(s)
    ensures var e := SideOf(s, r).e; e.acknowledged <= e.sent <= e.acknowledged + CREDIT_WINDOW
    ensures var l := LocalOf(s, r);
            Unacknowledged(l.x.e) <==> Only(l.out, IsData) != [] || Only(l.inn, IsAck) != []
  {
  }

  lemma {:induction false} AckIsThere(inn: seq<Message>)
    requires AckAfterData(inn)
    ensures Only(inn, IsAck) != []
  {
    if !inn[0].Data? { AckIsThere(inn[1..]); }
  }

  /** A peer that flushes polls while acknowledgements come, and A then awaits the completion. */
  lemma {:induction false} FlusherServes(s: System, r: Role)
    requires Waits(s, r)
    requires var peer := LocalOf(s, Other(r)); peer.x.phase == Flushing && Receptive(Other(r), SideOf(s, r), 0, peer)
    ensures CanBeServed(s, r)
    decreases |LocalOf(s, Other(r)).inn|
  {
    hide CanBeServed, Invariant, Only, Next;
    var peer := LocalOf(s, Other(r));
    HeadKind(peer.inn);
    HeadIsAccepted(s, Other(r));
    CreditIsBounded(s, Other(r));
    if AckAfterData(peer.inn) { AckIsThere(peer.inn); }
    OnlyPop(peer.inn, IsAck);
    assert peer.x.e.completion.None?;
    hide Waits;
    if peer.inn[0].Ack? {
      var s' := PeerPollsAck(s, r);
      FlusherServes(s', r);
      ServedLater(s, s', r);
    } else if Unacknowledged(peer.x.e) {
      DataServes(s, r);
    } else {
      var awaits := peer.(x := peer.x.(phase := Awaiting));
      var s' := PeerMoves(s, r, awaits);
      AwaiterServes(s', r);
      ServedLater(s, s', r);
    }
  }

  lemma AwaiterServes(s: System, r: Role)
    requires Waits(s, r) && SideOf(s, Other(r)).phase == Awaiting && !Crowded(SideOf(s, Other(r)))
    ensures CanBeServed(s, r)
  {
    var peer := LocalOf(s, Other(r));
    HeadKind(peer.inn);
    HeadIsAccepted(s, Other(r));
    CreditIsBounded(s, Other(r));
    OnlyPop(peer.inn, IsAck);
    assert Other(r) == RoleA && !Unacknowledged(peer.x.e);
    hide CanBeServed, Only;
    DataServes(s, r);
  }

  /** A stuck side with an empty channel and a receptive peer. */
  lemma ReceptiveServes(s: System, r: Role)
    requires Invariant(s) && Stuck(SideOf(s, r)) && LocalOf(s, r).inn == []
    requires Receptive(Other(r), SideOf(s, r), 0, LocalOf(s, Other(r)))
    ensures CanBeServed(s, r)
  {
    var peer := LocalOf(s, Other(r));
    assert Waits(s, r);
    hide Waits, Invariant, CanBeServed;
    match peer.x.phase {
      case Driving => DriverServes(s, r);
      case InSend(_) => BlockedSenderServes(s, r);
      case InReceive(_) => if peer.x.e.pending == [] { IdleReceiverServes(s, r); } else { TakerServes(s, r); }
      case Flushing => FlusherServes(s, r);
      case Awaiting => AwaiterServes(s, r);
      case Done =>
    }
  }

  /** A stuck side polls what is in its channel, and then its peer comes to its help. */
  lemma {:induction false} HopefulServes(s: System, r: Role)
    requires Invariant(s) && Stuck(SideOf(s, r)) && Hopeful(s, r)
    ensures CanBeServed(s, r)
    decreases |LocalOf(s, r).inn|
  {
    var l := LocalOf(s, r);
    if l.inn == [] {
      ReceptiveServes(s, r);
    } else if l.inn[0].Ack? {
      AckServes(s, r);
    } else {
      hide Invariant, Next, CanBeServed, Hopeful;
      HeadIsAccepted(s, r);
      var s' := Advance(s, r, AfterPoll(l));
      PollKeepsHope(s, r, s');
      HopefulServes(s', r);
      ServedLater(s, s', r);
    }
  }

  lemma {:induction false} AckComesBehind(inn: seq<Message>, n: U32)
    requires Only(inn, IsData) != []
    ensures AckAfterData(inn + [Ack(n)])
  {
    hide Only;
    if inn != [] {
      OnlyPop(inn, IsData);
      assert (inn + [Ack(n)])[1..] == inn[1..] + [Ack(n)];
      if inn[0].Data? { OnlyAppend(inn[1..], Ack(n), IsAck); } else { AckComesBehind(inn[1..], n); }
    } else {
      OnlyUnfold(inn, IsData);
    }
  }

  /** Polling data or the completion takes no hope away, and gives none. */
  lemma PollKeepsHope(s: System, r: Role, s': System)
    requires Invariant(s) && Stuck(SideOf(s, r)) && LocalOf(s, r).inn != [] && !LocalOf(s, r).inn[0].Ack?
    requires PollStep(LocalOf(s, r), LocalOf(s', r)) && SideOf(s', Other(r)) == SideOf(s, Other(r))
    ensures Hopeful(s', r) <==> Hopeful(s, r)
    ensures Stuck(SideOf(s', r)) && SameCounters(SideOf(s, r), SideOf(s', r))
  {
    hide Only, Invariant, AckAfterData, Receptive;
    var l, l', k, k' := LocalOf(s, r), LocalOf(s', r), LocalOf(s, Other(r)), LocalOf(s', Other(r));
    OnlyPop(l.inn, IsAck);
    if l.inn[0].Complete? {
      assert k'.inn == k.inn + [];
      SamePeer(Other(r), l.x, l'.x, DataBeforeAck(l.inn), k, k');
    } else if Only(l.inn, IsAck) == [] {
      UnacknowledgedIsInFlight(s, r);
      AckComesBehind(k.inn, l.x.e.nextReceived + 1);
      OnlyUnfold(k.inn, IsData);
      PeerHearsAnAck(Other(r), l.x, l'.x, DataBeforeAck(l.inn), k, k');
    }
  }

  lemma SamePeer(peer: Role, x: Side, x': Side, d: nat, k: Local, k': Local)
    requires x'.e.pending == x.e.pending && k'.x == k.x && k'.inn == k.inn
    ensures Receptive(peer, x, d, k) <==> Receptive(peer, x', d, k')
  {
    hide AckAfterData;
  }

  /** The stuck side has polled one of its `d` messages, and acknowledged it behind the data its peer has yet to poll. */
  lemma PeerHearsAnAck(peer: Role, x: Side, x': Side, d: nat, k: Local, k': Local)
    requires d > 0 && |x'.e.pending| == |x.e.pending| + 1 && k'.x == k.x && k.inn != [] && k.inn <= k'.inn
    requires AckAfterData(k'.inn)
    ensures Receptive(peer, x, d, k) <==> Receptive(peer, x', d - 1, k')
  {
    hide AckAfterData;
  }

  predicate SameCounters(x: Side, x': Side) {
    x'.log == x.log && x'.e.sent == x.e.sent && x'.e.acknowledged == x.e.acknowledged
  }

  lemma UnacknowledgedIsInFlight(s: System, r: Role)
    requires Invariant(s) && Stuck(SideOf(s, r))
    ensures Only(LocalOf(s, r).inn, IsAck) == [] ==> Only(LocalOf(s, r).out, IsData) != []
  {
  }

  // ---- when it never goes on ----

  ghost predicate Hopeless(s: System, r: Role) { Stuck(SideOf(s, r)) && !Hopeful(s, r) }

  lemma StuckSideStep(s: System, r: Role, s': System)
    requires Invariant(s) && Hopeless(s, r) && Step(s, r, s')
    ensures Hopeless(s', r) && SameCounters(SideOf(s, r), SideOf(s', r))
  {
    var l := LocalOf(s, r);
    assert PollStep(l, LocalOf(s', r));
    OnlyPop(l.inn, IsAck);
    hide Invariant, Only;
    PollKeepsHope(s, r, s');
  }

  lemma {:induction false} DataBeforeAckAppend(inn: seq<Message>, m: Message)
    ensures DataBeforeAck(inn + [m])
         == DataBeforeAck(inn) + if Only(inn, IsAck) == [] then |Part(m, IsData)| else 0
    ensures Only(inn, IsAck) == [] ==> DataBeforeAck(inn) == |Only(inn, IsData)|
  {
    if inn == [] {
      assert ([] + [m])[1..] == [];
    } else {
      assert (inn + [m])[1..] == inn[1..] + [m];
      if !inn[0].Ack? { DataBeforeAckAppend(inn[1..], m); }
    }
  }

  /** What a step of a side adds to the channel it writes. */
  function Added(k: Local, k': Local): seq<Message>
    requires k.out <= k'.out
  {
    k'.out[|k.out|..]
  }

  /** A peer that is not receptive may poll acknowledgements, end its flush, or send what is one too many. */
  lemma PeerStepGivesNoHope(peer: Role, x: Side, d: nat, k: Local, k': Local)
    requires SideStep(peer, k, k') && !Receptive(peer, x, d, k)
    requires Only(k.inn, IsComplete) == [] && k.x.e.completion.None? && k.x.e.sent <= k.x.e.acknowledged + CREDIT_WINDOW
    requires Unacknowledged(k.x.e) <==> d > 0 || Only(k.inn, IsAck) != []
    ensures k.out <= k'.out
    ensures match |Added(k, k')|
            case 0 => !Receptive(peer, x, d, k')
            case 1 => (Added(k, k')[0].Data? && |x.e.pending| + d >= CREDIT_WINDOW)
                      || (Added(k, k')[0].Complete? && !Receptive(peer, x, d, k'))
            case _ => false
  {
    if PollStep(k, k') { PollGivesNoHope(peer, x, d, k, k'); }
  }

  lemma PollGivesNoHope(peer: Role, x: Side, d: nat, k: Local, k': Local)
    requires PollStep(k, k') && !Receptive(peer, x, d, k)
    requires Only(k.inn, IsComplete) == [] && k.x.e.sent <= k.x.e.acknowledged + CREDIT_WINDOW
    requires Unacknowledged(k.x.e) <==> d > 0 || Only(k.inn, IsAck) != []
    ensures k'.out == k.out && !Receptive(peer, x, d, k')
  {
    OnlyPop(k.inn, IsComplete);
    OnlyPop(k.inn, IsAck);
    hide Only;
    assert k.inn[0].Ack?;
  }

  /** What is added to the channel of a side that has no hope. */
  lemma AddedToHopeless(l: Local, d: nat, added: seq<Message>, inn: seq<Message>)
    requires d == DataBeforeAck(l.inn) && |added| <= 1 && inn == l.inn + added
    ensures DataBeforeAck(inn) >= d
    ensures Only(l.inn, IsAck) == [] && added == [] ==> DataBeforeAck(inn) == d && Only(inn, IsAck) == []
    ensures Only(l.inn, IsAck) == [] && added != [] ==>
              DataBeforeAck(inn) == d + |Part(added[0], IsData)| && Only(inn, IsAck) == Part(added[0], IsAck)
  {
    if added == [] {
      assert inn == l.inn;
    } else {
      assert added == [added[0]];
      DataBeforeAckAppend(l.inn, added[0]);
      OnlyAppend(l.inn, added[0], IsAck);
    }
  }

  lemma PeerStep(s: System, r: Role, s': System)
    requires Invariant(s) && Hopeless(s, r) && Step(s, Other(r), s')
    ensures Hopeless(s', r) && SideOf(s', r) == SideOf(s, r)
  {
    hide Invariant, SideStep, Receptive, Only, DataBeforeAck;
    var l, k, k' := LocalOf(s, r), LocalOf(s, Other(r)), LocalOf(s', Other(r));
    var d := DataBeforeAck(l.inn);
    assert LocalOf(s', r).x == l.x && LocalOf(s', r).inn == k'.out && k.out == l.inn;
    OutboxGrows(Other(r), k, k');
    assert k'.out == k.out + Added(k, k');
    AddedToHopeless(l, d, Added(k, k'), k'.out);
    if d == 0 || |l.x.e.pending| + d <= CREDIT_WINDOW {
      CreditIsBounded(s, Other(r));
      PeerIsNotCompleted(s, Other(r));
      DataBeforeAckAppend(l.inn, Ack(0));
      PeerStepGivesNoHope(Other(r), l.x, d, k, k');
    }
  }

  lemma PeerIsNotCompleted(s: System, r: Role)
    requires Invariant(s) && SideOf(s, r).phase != Done && SideOf(s, Other(r)).phase != Done
    ensures Only(LocalOf(s, r).inn, IsComplete) == [] && SideOf(s, r).e.completion.None?
  {
  }

  lemma OutboxGrows(r: Role, k: Local, k': Local)
    requires SideStep(r, k, k')
    ensures k.out <= k'.out && |k'.out| <= |k.out| + 1 && k.x.phase != Done
  {
  }

  lemma HopelessStep(s: System, s': System, r: Role)
    requires Invariant(s) && Hopeless(s, r) && Next(s, s')
    ensures Invariant(s') && Hopeless(s', r) && SameCounters(SideOf(s, r), SideOf(s', r))
  {
    NextKeepsInvariant(s, s');
    hide Invariant, Hopeless, Step;
    if Step(s, r, s') { StuckSideStep(s, r, s'); } else { PeerStep(s, r, s'); }
  }

  /** A hopeless side never sends again and never hears an acknowledgement. */
  lemma {:induction false} HopelessForEver(path: seq<System>, n: nat, r: Role)
    requires IsPath(path) && n < |path| && Invariant(path[0]) && Hopeless(path[0], r)
    ensures Invariant(path[n]) && Hopeless(path[n], r) && SameCounters(SideOf(path[0], r), SideOf(path[n], r))
  {
    hide Invariant, Hopeless, Next;
    if n > 0 {
      HopelessForEver(path, n - 1, r);
      assert Next(path[n - 1], path[(n - 1) + 1]);
      HopelessStep(path[n - 1], path[n], r);
    }
  }

  // ---- exactly when ----

  /** In every reachable state a stuck side can still get an acknowledgement, in some continuation, exactly when it is
      hopeful. Otherwise it stays where it is in every continuation. */
  lemma StuckGoesOnIfHopeful(run: seq<System>, n: nat, r: Role)
    requires IsRun(run) && n < |run| && Stuck(SideOf(run[n], r))
    ensures CanBeServed(run[n], r) <==> Hopeful(run[n], r)
    ensures !Hopeful(run[n], r) ==> forall s' :: Leads(run[n], s') ==> SameCounters(SideOf(run[n], r), SideOf(s', r))
  {
    EveryStateIsGood(run, n);
    hide IsRun, Invariant, Hopeful, CanBeServed;
    if Hopeful(run[n], r) { HopefulServes(run[n], r); } else { NeverServed(run[n], r); }
  }

  lemma NeverServed(s: System, r: Role)
    requires Invariant(s) && Hopeless(s, r)
    ensures !CanBeServed(s, r) && forall s' :: Leads(s, s') ==> SameCounters(SideOf(s, r), SideOf(s', r))
  {
    hide Invariant, Hopeless;
    forall s' | Leads(s, s') ensures SameCounters(SideOf(s, r), SideOf(s', r)) {
      var path :| IsPath(path) && path[0] == s && path[|path| - 1] == s';
      HopelessForEver(path, |path| - 1, r);
    }
  }

  /** Once B is done and nothing is left for A, A hears nothing more, whatever it does; if its window is full it never
      sends again. */
  lemma {:induction false} AbandonedForEver(run: seq<System>, i: nat, n: nat)
    requires IsRun(run) && i <= n < |run| && run[i].b.phase == Done && run[i].ba == []
    ensures run[n].b == run[i].b && run[n].ba == [] && run[n].a.e.acknowledged == run[i].a.e.acknowledged
    ensures Full(run[i].a.e) ==> run[n].a.log == run[i].a.log && run[n].a.e.sent == run[i].a.e.sent
  {
    hide Next;
    if i < n {
      AbandonedForEver(run, i, n - 1);
      assert Next(run[n - 1], run[(n - 1) + 1]);
      AbandonedStep(run[n - 1], run[n]);
    }
  }

  lemma AbandonedStep(s: System, s': System)
    requires Next(s, s') && s.b.phase == Done && s.ba == []
    ensures s'.b == s.b && s'.ba == [] && s'.a.e.acknowledged == s.a.e.acknowledged
    ensures Full(s.a.e) ==> s'.a.log == s.a.log && s'.a.e.sent == s.a.e.sent
  {
  }

  // ---- what is left when A returns ----

  predicate PastFlush(x: Side) { x.phase == Awaiting || x.phase == Done }

  /** After its flush A takes nothing more. */
  lemma {:induction false} TakenStays(run: seq<System>, i: nat, n: nat)
    requires IsRun(run) && i <= n < |run| && PastFlush(run[i].a)
    ensures run[n].a.taken == run[i].a.taken && PastFlush(run[n].a)
  {
    hide Next;
    if i < n {
      TakenStays(run, i, n - 1);
      assert Next(run[n - 1], run[(n - 1) + 1]);
      TakenStep(run[n - 1], run[n]);
    }
  }

  lemma TakenStep(s: System, s': System)
    requires Next(s, s')
    ensures PastFlush(s.a) ==> s'.a.taken == s.a.taken && PastFlush(s'.a)
    ensures PastFlush(s'.a) && !PastFlush(s.a) ==> Flushed(s.a) && s'.a.phase == Awaiting && s'.a.taken == s.a.taken
  {
  }

  /** A run in which A is past its flush has a point at which the flush ended. */
  lemma {:induction false} FlushEnded(run: seq<System>, n: nat) returns (i: nat)
    requires IsRun(run) && n < |run| && PastFlush(run[n].a)
    ensures i < n && Flushed(run[i].a) && run[i + 1].a.phase == Awaiting && run[n].a.taken == run[i].a.taken
  {
    hide Next;
    assert n > 0;
    assert Next(run[n - 1], run[(n - 1) + 1]);
    TakenStep(run[n - 1], run[n]);
    if PastFlush(run[n - 1].a) { i := FlushEnded(run, n - 1); } else { i := n - 1; }
  }

  /** Whenever A returns, its queue holds exactly what B sent after the message A had received when its flush ended. So
      nothing is left if and only if B sent nothing after that. */
  lemma ReturnLeavesLateMessages(run: seq<System>, n: nat) returns (i: nat)
    requires IsRun(run) && n < |run| && run[n].a.phase == Done
    ensures i < n && Flushed(run[i].a) && run[i + 1].a.phase == Awaiting
    ensures run[i].a.e.nextReceived <= |run[n].b.log|
    ensures run[n].a.e.pending == run[n].b.log[run[i].a.e.nextReceived..]
    ensures run[n].a.e.pending == [] <==> run[n].b.e.sent == run[i].a.e.nextReceived
  {
    i := FlushEnded(run, n);
    CompletionMeansDelivered(run, n);
    EveryStateIsGood(run, i);
    EveryStateIsGood(run, n);
    hide Next, Only, IsRun, Completion;
    var taken, log := run[i].a.taken, run[n].b.log;
    assert taken + [] == taken && |taken| == run[i].a.e.nextReceived;
    assert log == taken + run[n].a.e.pending;
  }
}
