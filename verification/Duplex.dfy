/** One endpoint of the credit-window transport: envelopes, the receive checks, and the polling loops. */
module Duplex {
  import opened Results
  import opened Bytes

  const CREDIT_WINDOW := 8
  const MAX_RUNTIME_MESSAGE_BYTES := 188_464
  const MAX_COMPLETION_BYTES := 16_384

  type U32 = n: nat | n < TWO32

  type Payload = seq<Byte>

  datatype Message = Data(sequence: U32, payload: Payload) | Ack(acknowledged: U32) | Complete(report: Payload)

  // ---- envelopes ----

  /** u32::to_le_bytes. */
  function LittleEndian(x: nat, w: nat): (s: seq<Byte>)
    requires x < Pow256(w)
    ensures |s| == w
  {
    if w == 0 then [] else [x % 256] + LittleEndian(x / 256, w - 1)
  }

  function FromLittleEndian(s: seq<Byte>): (x: nat)
    ensures x < Pow256(|s|)
  {
    if s == [] then 0 else s[0] + 256 * FromLittleEndian(s[1..])
  }

  lemma {:induction false} LittleEndianRoundTrip(x: nat, w: nat)
    requires x < Pow256(w)
    ensures FromLittleEndian(LittleEndian(x, w)) == x
  {
    if w > 0 {
      LittleEndianRoundTrip(x / 256, w - 1);
      assert LittleEndian(x, w)[1..] == LittleEndian(x / 256, w - 1);
    }
  }

  lemma {:induction false} FromLittleEndianRoundTrip(s: seq<Byte>)
    ensures LittleEndian(FromLittleEndian(s), |s|) == s
  {
    if s != [] {
      FromLittleEndianRoundTrip(s[1..]);
      var low, high := s[0], FromLittleEndian(s[1..]);
      assert (low + 256 * high) / 256 == high && (low + 256 * high) % 256 == low;
      assert s == [s[0]] + s[1..];
    }
  }

  lemma Width4()
    ensures Pow256(4) == TWO32
  {
    Pow256Values();
  }

  function Counter(n: U32): (s: seq<Byte>)
    ensures |s| == 4
  {
    Width4();
    LittleEndian(n, 4)
  }

  function FromCounter(s: seq<Byte>): U32
    requires |s| == 4
  {
    Width4();
    FromLittleEndian(s)
  }

  lemma CounterRoundTrip(n: U32, s: seq<Byte>)
    ensures FromCounter(Counter(n)) == n
    ensures |s| == 4 ==> Counter(FromCounter(s)) == s
  {
    Width4();
    LittleEndianRoundTrip(n, 4);
    FromLittleEndianRoundTrip(s);
  }

  function Encode(m: Message): seq<Byte> {
    match m
    case Data(n, payload) => [0] + Counter(n) + payload
    case Ack(n) => [1] + Counter(n)
    case Complete(report) => [2] + report
  }

  /** Whether the report parses as JSON. */
  type Json = Payload -> bool

  /** The length and kind checks of poll and the accept functions. */
  function Decode(envelope: seq<Byte>, json: Json): Result<Message> {
    if envelope == [] then Err("empty envelope")
    else if envelope[0] == 0 then
      if |envelope| < 5 || |envelope| > MAX_RUNTIME_MESSAGE_BYTES + 5 then Err("data length")
      else Ok(Data(FromCounter(envelope[1..5]), envelope[5..]))
    else if envelope[0] == 1 then
      if |envelope| != 5 then Err("acknowledgement length") else Ok(Ack(FromCounter(envelope[1..])))
    else if envelope[0] == 2 then
      if |envelope| > MAX_COMPLETION_BYTES then Err("completion too large")
      else if !json(envelope[1..]) then Err("completion is not JSON")
      else Ok(Complete(envelope[1..]))
    else Err("envelope kind")
  }

  /** Within the size bounds of its kind. */
  predicate Fits(m: Message) {
    match m
    case Data(_, payload) => |payload| <= MAX_RUNTIME_MESSAGE_BYTES
    case Ack(_) => true
    case Complete(report) => |report| + 1 <= MAX_COMPLETION_BYTES
  }

  predicate Sendable(m: Message, json: Json) { Fits(m) && (m.Complete? ==> json(m.report)) }

  /** What is sent decodes to itself. */
  lemma EnvelopeRoundTrip(m: Message, json: Json)
    requires Sendable(m, json)
    ensures Decode(Encode(m), json) == Ok(m)
  {
    hide Counter, FromCounter;
    match m
    case Data(n, payload) =>
      CounterRoundTrip(n, []);
      assert Encode(m)[1..5] == Counter(n) && Encode(m)[5..] == payload;
    case Ack(n) =>
      CounterRoundTrip(n, []);
      assert Encode(m)[1..] == Counter(n);
    case Complete(report) =>
      assert Encode(m)[1..] == report;
  }

  /** An envelope is its kind, then a counter whose lowest byte comes first, or the report. */
  lemma EnvelopeBytes(n: U32, rest: Payload)
    ensures var counter := [n % 256, n / 256 % 256, n / 0x1_0000 % 256, n / 0x100_0000];
            && Encode(Data(n, rest)) == [0] + counter + rest && Encode(Ack(n)) == [1] + counter
            && Encode(Complete(rest)) == [2] + rest
  {
    CounterBytes(n);
    hide Counter;
  }

  lemma CounterBytes(n: U32)
    ensures n / 0x100_0000 < 256 && Counter(n) == [n % 256, n / 256 % 256, n / 0x1_0000 % 256, n / 0x100_0000]
  {
    Width4();
    Pow256Values();
    var a, b, c := n / 256, n / 0x1_0000, n / 0x100_0000;
    assert a / 256 == b && b / 256 == c;
    assert LittleEndian(c, 1) == [c] + LittleEndian(c / 256, 0);
    assert LittleEndian(b, 2) == [b % 256] + LittleEndian(c, 1);
    assert LittleEndian(a, 3) == [a % 256] + LittleEndian(b, 2);
    assert LittleEndian(n, 4) == [n % 256] + LittleEndian(a, 3);
  }

  /** The envelopes that are read, by their lengths and first bytes. */
  lemma DecodesExactly(envelope: seq<Byte>, json: Json)
    ensures Decode(envelope, json).Ok?
       <==> || (5 <= |envelope| <= 188_469 && envelope[0] == 0)
            || (|envelope| == 5 && envelope[0] == 1)
            || (1 <= |envelope| <= 16_384 && envelope[0] == 2 && json(envelope[1..]))
  {
    hide FromCounter;
  }

  /** What decodes was sent that way: no two envelopes mean the same. */
  lemma EnvelopeIsCanonical(envelope: seq<Byte>, json: Json)
    requires Decode(envelope, json).Ok?
    ensures Encode(Decode(envelope, json).value) == envelope && Sendable(Decode(envelope, json).value, json)
  {
    hide Counter, FromCounter;
    if envelope[0] == 0 {
      CounterRoundTrip(0, envelope[1..5]);
      assert envelope == [0] + envelope[1..5] + envelope[5..];
    } else if envelope[0] == 1 {
      CounterRoundTrip(0, envelope[1..]);
      assert envelope == [1] + envelope[1..];
    } else {
      assert envelope == [2] + envelope[1..];
    }
  }

  // ---- the endpoint as a value ----

  datatype Endpoint = Endpoint(sent: nat, acknowledged: nat, nextReceived: nat, pending: seq<Payload>,
                               completion: Option<Payload>)

  const START := Endpoint(0, 0, 0, [], None)

  predicate Full(e: Endpoint) { e.sent - e.acknowledged >= CREDIT_WINDOW }

  /** accept_data, accept_ack and accept_completion: the new endpoint and what it sends back. The counters
      are 32 bits wide; an endpoint whose counter would overflow takes no further step. */
  function Accept(e: Endpoint, m: Message): Result<(Endpoint, seq<Message>)> {
    match m
    case Data(n, payload) =>
      if n != e.nextReceived || |e.pending| >= CREDIT_WINDOW || e.nextReceived + 1 >= TWO32 then Err("sequence or credit")
      else
        var e' := e.(nextReceived := e.nextReceived + 1, pending := e.pending + [payload]);
        Ok((e', [Ack(e'.nextReceived)]))
    case Ack(n) =>
      if n != e.acknowledged + 1 || n > e.sent then Err("acknowledgement sequence")
      else Ok((e.(acknowledged := n), []))
    case Complete(report) =>
      if e.completion.Some? then Err("duplicate completion") else Ok((e.(completion := Some(report)), []))
  }

  /** An endpoint, the events still to come, and the envelopes it has put on the wire. */
  datatype Connection = Connection(e: Endpoint, events: seq<seq<Byte>>, outgoing: seq<seq<Byte>>)

  function Encoded(ms: seq<Message>): (r: seq<seq<Byte>>)
    ensures |r| == |ms|
  {
    seq(|ms|, i requires 0 <= i < |ms| => Encode(ms[i]))
  }

  /** poll. */
  function Polled(c: Connection, json: Json): Result<Connection> {
    if c.events == [] then Err("peer closed")
    else
      var m :- Decode(c.events[0], json);
      var (e, replies) :- Accept(c.e, m);
      Ok(Connection(e, c.events[1..], c.outgoing + Encoded(replies)))
  }

  /** Polling an envelope that a peer sent is accepting the message in it. */
  lemma PollAcceptsTheMessage(c: Connection, json: Json, m: Message)
    requires c.events != [] && c.events[0] == Encode(m) && Sendable(m, json)
    ensures var accepted := Accept(c.e, m);
            && (Polled(c, json).Ok? <==> accepted.Ok?)
            && (accepted.Ok? ==>
                  Polled(c, json).value == Connection(accepted.value.0, c.events[1..], c.outgoing + Encoded(accepted.value.1)))
  {
    hide Decode, Encode;
    EnvelopeRoundTrip(m, json);
  }

  /** Polls while `waiting` holds: the loop that send, receive, flush and peer_completion share. */
  function PolledWhile(c: Connection, json: Json, waiting: Endpoint -> bool): (r: Result<Connection>)
    ensures r.Ok? ==> !waiting(r.value.e)
    decreases |c.events|
  {
    if !waiting(c.e) then Ok(c)
    else
      var c' :- Polled(c, json);
      PolledWhile(c', json, waiting)
  }

  predicate Unacknowledged(e: Endpoint) { e.acknowledged != e.sent }

  predicate Idle(e: Endpoint) { e.pending == [] && e.completion.None? }

  predicate NotCompleted(e: Endpoint) { e.completion.None? }

  // ---- the endpoint as an object ----

  class Transport {
    var sent: nat
    var acknowledged: nat
    var nextReceived: nat
    var pending: seq<Payload>
    var completion: Option<Payload>
    var events: seq<seq<Byte>>
    var outgoing: seq<seq<Byte>>
    const json: Json

    function Value(): Connection
      reads this
    {
      Connection(Endpoint(sent, acknowledged, nextReceived, pending, completion), events, outgoing)
    }

    constructor (events: seq<seq<Byte>>, json: Json)
      ensures Value() == Connection(START, events, []) && this.json == json
    {
      sent, acknowledged, nextReceived := 0, 0, 0;
      pending, completion, outgoing := [], None, [];
      this.events, this.json := events, json;
    }

    method AcceptData(envelope: seq<Byte>) returns (ok: bool)
      requires envelope != [] && envelope[0] == 0
      modifies this
      ensures events == old(events)
      ensures var m := Decode(envelope, json);
              var r := if m.Ok? then Accept(old(Value()).e, m.value) else Err("");
              if r.Ok? then ok && Value() == Connection(r.value.0, old(events), old(outgoing) + Encoded(r.value.1))
              else !ok && Value() == old(Value())
    {
      if |envelope| < 5 || |envelope| > MAX_RUNTIME_MESSAGE_BYTES + 5 { return false; }
      var sequence := FromCounter(envelope[1..5]);
      if sequence != nextReceived || |pending| >= CREDIT_WINDOW { return false; }
      if nextReceived + 1 >= TWO32 { return false; }
      nextReceived := nextReceived + 1;
      pending := pending + [envelope[5..]];
      outgoing := outgoing + [[1] + Counter(nextReceived)];
      return true;
    }

    method AcceptAck(envelope: seq<Byte>) returns (ok: bool)
      requires envelope != [] && envelope[0] == 1
      modifies this
      ensures var m := Decode(envelope, json);
              var r := if m.Ok? then Accept(old(Value()).e, m.value) else Err("");
              if r.Ok? then ok && Value() == Connection(r.value.0, old(events), old(outgoing) + Encoded(r.value.1))
              else !ok && Value() == old(Value())
    {
      if |envelope| != 5 { return false; }
      var n := FromCounter(envelope[1..]);
      if n != acknowledged + 1 || n > sent { return false; }
      acknowledged := n;
      return true;
    }

    method AcceptCompletion(envelope: seq<Byte>) returns (ok: bool)
      requires envelope != [] && envelope[0] == 2
      modifies this
      ensures var m := Decode(envelope, json);
              var r := if m.Ok? then Accept(old(Value()).e, m.value) else Err("");
              if r.Ok? then ok && Value() == Connection(r.value.0, old(events), old(outgoing) + Encoded(r.value.1))
              else !ok && Value() == old(Value())
    {
      if |envelope| > MAX_COMPLETION_BYTES || completion.Some? { return false; }
      if !json(envelope[1..]) { return false; }
      completion := Some(envelope[1..]);
      return true;
    }

    /** poll: takes the next event and hands it to the matching accept function. */
    method Poll() returns (ok: bool)
      modifies this
      ensures match Polled(old(Value()), json)
              case Ok(c) => ok && Value() == c
              case Err(_) => !ok
      ensures ok ==> |events| < |old(events)|
    {
      if events == [] { return false; }
      var envelope := events[0];
      events := events[1..];
      if envelope == [] { return false; }
      if envelope[0] == 0 {
        ok := AcceptData(envelope);
      } else if envelope[0] == 1 {
        ok := AcceptAck(envelope);
      } else if envelope[0] == 2 {
        ok := AcceptCompletion(envelope);
      } else {
        ok := false;
      }
    }

    /** send: waits for credit, then puts one DATA envelope on the wire. */
    method Send(bytes: Payload) returns (ok: bool)
      modifies this
      ensures |bytes| > MAX_RUNTIME_MESSAGE_BYTES ==> !ok && Value() == old(Value())
      ensures |bytes| <= MAX_RUNTIME_MESSAGE_BYTES ==>
                match PolledWhile(old(Value()), json, Full)
                case Err(_) => !ok
                case Ok(c) =>
                  if c.e.sent + 1 < TWO32
                  then ok && Value() == c.(e := c.e.(sent := c.e.sent + 1),
                                           outgoing := c.outgoing + [Encode(Data(c.e.sent, bytes))])
                  else !ok
    {
      if |bytes| > MAX_RUNTIME_MESSAGE_BYTES { return false; }
      while sent - acknowledged >= CREDIT_WINDOW
        invariant PolledWhile(old(Value()), json, Full) == PolledWhile(Value(), json, Full)
        decreases |events|
      {
        var polled := Poll();
        if !polled { return false; }
      }
      if sent + 1 >= TWO32 { return false; }
      var envelope := [0];
      envelope := envelope + Counter(sent);
      envelope := envelope + bytes;
      outgoing := outgoing + [envelope];
      sent := sent + 1;
      return true;
    }

    /** receive: waits for a message or the peer's completion, and takes the oldest message. */
    method Receive(expectedBytes: nat) returns (r: Result<Payload>)
      modifies this
      ensures match PolledWhile(old(Value()), json, Idle)
              case Err(_) => r.Err?
              case Ok(c) =>
                if c.e.pending == [] then r.Err?
                else
                  && Value() == c.(e := c.e.(pending := c.e.pending[1..]))
                  && if |c.e.pending[0]| == expectedBytes then r == Ok(c.e.pending[0]) else r.Err?
    {
      while true
        invariant PolledWhile(old(Value()), json, Idle) == PolledWhile(Value(), json, Idle)
        decreases |events|
      {
        if pending != [] {
          var bytes := pending[0];
          pending := pending[1..];
          if |bytes| != expectedBytes { return Err("the peer message byte length is incorrect"); }
          return Ok(bytes);
        }
        if completion.Some? { return Err("the peer completed before the runtime message"); }
        var polled := Poll();
        if !polled { return Err("peer closed"); }
      }
    }

    /** flush: waits for every acknowledgement; a message nobody took is an error. */
    method Flush() returns (ok: bool)
      modifies this
      ensures match PolledWhile(old(Value()), json, Unacknowledged)
              case Err(_) => !ok
              case Ok(c) => Value() == c && (ok <==> c.e.pending == [])
    {
      while acknowledged != sent
        invariant PolledWhile(old(Value()), json, Unacknowledged) == PolledWhile(Value(), json, Unacknowledged)
        decreases |events|
      {
        var polled := Poll();
        if !polled { return false; }
      }
      return pending == [];
    }

    /** peer_completion: flushes, then waits for the completion and takes it. */
    method PeerCompletion() returns (r: Result<Payload>)
      modifies this
      ensures match PolledWhile(old(Value()), json, Unacknowledged)
              case Err(_) => r.Err?
              case Ok(c) =>
                if c.e.pending != [] then r.Err?
                else
                  match PolledWhile(c, json, NotCompleted)
                  case Err(_) => r.Err?
                  case Ok(d) => r == Ok(d.e.completion.value) && Value() == d.(e := d.e.(completion := None))
    {
      var flushed := Flush();
      if !flushed { return Err("flush"); }
      ghost var c := Value();
      while true
        invariant PolledWhile(c, json, NotCompleted) == PolledWhile(Value(), json, NotCompleted)
        decreases |events|
      {
        match completion {
          case Some(report) =>
            completion := None;
            return Ok(report);
          case None =>
        }
        var polled := Poll();
        if !polled { return Err("peer closed"); }
      }
    }
  }
}
