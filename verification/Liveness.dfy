/** The dead-gate check: a worklist over a mutable mark array. */
module Liveness {
  import opened Circuits

  /** `p` lists gates from an output down to `w`: the first drives an output wire, each next one
      is read by the gate before it, and the last reads `w`. An empty path means `w` is an output. */
  ghost predicate IsPath(c: Circuit, p: seq<nat>, w: nat) {
    if p == [] then w in c.outputs
    else
      var g := p[|p| - 1];
      g < |c.gates| && Reads(c.gates[g], w) && IsPath(c, p[..|p| - 1], c.inputCount + g)
  }

  /** Some output depends on wire `w`. */
  ghost predicate LiveWire(c: Circuit, w: nat) {
    exists p :: IsPath(c, p, w)
  }

  ghost predicate LiveGate(c: Circuit, g: nat) {
    LiveWire(c, c.inputCount + g)
  }

  ghost predicate AllLive(c: Circuit) {
    forall g :: 0 <= g < |c.gates| ==> LiveGate(c, g)
  }

  lemma OutputIsLive(c: Circuit, w: nat)
    requires w in c.outputs
    ensures LiveWire(c, w)
  {
    assert IsPath(c, [], w);
  }

  lemma OperandIsLive(c: Circuit, g: nat, w: nat)
    requires g < |c.gates| && LiveGate(c, g) && Reads(c.gates[g], w)
    ensures LiveWire(c, w)
  {
    var p :| IsPath(c, p, c.inputCount + g);
    assert (p + [g])[..|p|] == p;
    assert IsPath(c, p + [g], w);
  }

  /** A live wire is an output or an operand of some gate, so it has a last use. */
  lemma LiveWireIsUsed(c: Circuit, w: nat)
    requires LiveWire(c, w)
    ensures LastUse(c, w).Some?
  {
    var p :| IsPath(c, p, w);
    LastUseIsLast(c, w);
  }

  /** The wire is an input, is marked, or still waits on the worklist. */
  ghost predicate Covered(c: Circuit, live: seq<bool>, pending: seq<nat>, w: nat)
    requires |live| == |c.gates| && w < c.WireCount()
  {
    w < c.inputCount || live[w - c.inputCount] || w in pending
  }

  ghost predicate Explored(c: Circuit, live: seq<bool>, pending: seq<nat>)
    requires Acyclic(c) && |live| == |c.gates|
  {
    && (forall o :: 0 <= o < |c.outputs| ==> Covered(c, live, pending, c.outputs[o]))
    && (forall g :: 0 <= g < |c.gates| && live[g] ==>
          Covered(c, live, pending, c.gates[g].left) && Covered(c, live, pending, c.gates[g].right))
  }

  ghost predicate SoundMarks(c: Circuit, live: seq<bool>, pending: seq<nat>)
    requires Acyclic(c) && |live| == |c.gates|
  {
    && (forall k :: 0 <= k < |pending| ==> pending[k] < c.WireCount() && LiveWire(c, pending[k]))
    && (forall g :: 0 <= g < |c.gates| && live[g] ==> LiveGate(c, g))
  }

  /** Once the worklist is empty, every gate that a path ends in is marked. */
  lemma {:induction false} MarksReachPath(c: Circuit, live: seq<bool>, p: seq<nat>, w: nat)
    requires Acyclic(c) && |live| == |c.gates| && Explored(c, live, []) && IsPath(c, p, w)
    ensures w < c.WireCount() && (w >= c.inputCount ==> live[w - c.inputCount])
  {
    if p != [] {
      MarksReachPath(c, live, p[..|p| - 1], c.inputCount + p[|p| - 1]);
    }
  }

  /** With an empty worklist the marks are exactly the live gates. */
  lemma MarksAreExact(c: Circuit, live: seq<bool>)
    requires Acyclic(c) && |live| == |c.gates| && Explored(c, live, []) && SoundMarks(c, live, [])
    ensures forall g :: 0 <= g < |c.gates| ==> (live[g] <==> LiveGate(c, g))
  {
    forall g | 0 <= g < |c.gates| && LiveGate(c, g) ensures live[g] {
      var p :| IsPath(c, p, c.inputCount + g);
      MarksReachPath(c, live, p, c.inputCount + g);
    }
  }

  /** Popping a wire that is an input or already marked keeps every wire covered. */
  lemma PopKeepsWorklist(c: Circuit, live: seq<bool>, pending: seq<nat>)
    requires Acyclic(c) && |live| == |c.gates| && Explored(c, live, pending) && |pending| > 0
    requires var w := pending[|pending| - 1];
             w < c.WireCount() && (w < c.inputCount || live[w - c.inputCount])
    requires SoundMarks(c, live, pending)
    ensures Explored(c, live, pending[..|pending| - 1])
    ensures SoundMarks(c, live, pending[..|pending| - 1])
  {
    hide LiveWire;
    var w, rest := pending[|pending| - 1], pending[..|pending| - 1];
    assert pending == rest + [w];
    assert forall v :: v in pending <==> v in rest || v == w;
  }

  /** Marking a gate and queueing its operands keeps every wire covered. */
  lemma MarkKeepsWorklist(c: Circuit, live: seq<bool>, pending: seq<nat>, g: nat, next: seq<nat>)
    requires Acyclic(c) && |live| == |c.gates| && Explored(c, live, pending) && g < |c.gates|
    requires |pending| > 0 && pending[|pending| - 1] == c.inputCount + g
    requires SoundMarks(c, live, pending) && !live[g]
    requires c.gates[g].left in next && c.gates[g].right in next
    requires forall k :: 0 <= k < |next| ==> Reads(c.gates[g], next[k])
    ensures Explored(c, live[g := true], pending[..|pending| - 1] + next)
    ensures SoundMarks(c, live[g := true], pending[..|pending| - 1] + next)
    ensures Unmarked(live[g := true]) < Unmarked(live)
  {
    hide LiveWire;
    var w, rest := pending[|pending| - 1], pending[..|pending| - 1];
    var live', pending' := live[g := true], rest + next;
    assert pending == rest + [w];
    assert forall v :: v in pending ==> v in rest || v == w;
    assert forall v: nat :: v < c.WireCount() && Covered(c, live, pending, v) ==> Covered(c, live', pending', v);
    forall k | 0 <= k < |next| ensures next[k] < c.WireCount() && LiveWire(c, next[k]) {
      OperandIsLive(c, g, next[k]);
    }
    assert g in Unmarked(live) && g !in Unmarked(live');
  }

  function Unmarked(live: seq<bool>): set<nat> {
    set g: nat | g < |live| && !live[g]
  }

  /** _all_gates_live: true exactly when some output depends on every gate. */
  method AllGatesLive(c: Circuit) returns (all: bool)
    requires Acyclic(c)
    ensures all <==> AllLive(c)
  {
    hide LiveWire;
    var live := new bool[|c.gates|](_ => false);
    var pending := c.outputs;
    forall o | 0 <= o < |c.outputs| ensures LiveWire(c, c.outputs[o]) { OutputIsLive(c, c.outputs[o]); }
    while |pending| > 0
      invariant Explored(c, live[..], pending)
      invariant SoundMarks(c, live[..], pending)
      decreases Unmarked(live[..]), |pending|
    {
      ghost var before, queue := live[..], pending;
      var wire := pending[|pending| - 1];
      pending := pending[..|pending| - 1];
      if wire < c.inputCount || live[wire - c.inputCount] {
        PopKeepsWorklist(c, before, queue);
      } else {
        var g := wire - c.inputCount;
        var gate := c.gates[g];
        live[g] := true;
        var next := if gate.right != gate.left then [gate.left, gate.right] else [gate.left];
        pending := pending + next;
        MarkKeepsWorklist(c, before, queue, g, next);
        assert live[..] == before[g := true];
      }
    }
    all := forall g :: 0 <= g < |c.gates| ==> live[g];
    MarksAreExact(c, live[..]);
  }
}
