/** The canonical last-use schedule: which slot every wire gets, and why that is sound and optimal. */
module Allocation {
  import opened Circuits
  import opened Results
  import opened Liveness
  import opened Schedules

  /** The slot every wire so far was given, the wires that still hold theirs, the free slots, and the
      first slot never used so far. */
  datatype Arena = Arena(slotOf: seq<nat>, held: set<nat>, free: set<nat>, next: nat)

  /** The least element, found by counting up from `from`. */
  function LeastFrom(s: set<nat>, from: nat, bound: nat): (m: nat)
    requires from <= bound && bound in s
    requires forall x :: x in s ==> from <= x
    ensures m in s && forall x :: x in s ==> m <= x
    decreases bound - from
  {
    if from in s then from else LeastFrom(s, from + 1, bound)
  }

  /** What heappop returns: the least free slot. */
  ghost function Min(s: set<nat>): (m: nat)
    requires s != {}
    ensures m in s && forall x :: x in s ==> m <= x
  {
    var bound :| bound in s;
    LeastFrom(s, 0, bound)
  }

  function Below(n: nat): (s: set<nat>)
    ensures forall x: nat :: x in s <==> x < n
    ensures |s| == n
  {
    if n == 0 then {} else Below(n - 1) + {n - 1}
  }

  function Max(a: nat, b: nat): nat { if a < b then b else a }

  function Used(c: Circuit, w: nat): bool { LastUse(c, w).Some? }

  /** Inputs sit in the first slots; the slot of an unused input is free at once. */
  ghost function StartArena(c: Circuit): Arena {
    var used := set w | w in Below(c.inputCount) && Used(c, w);
    Arena(seq(c.inputCount, i => i), used, Below(c.inputCount) - used, c.inputCount)
  }

  ghost predicate Sized(a: Arena) {
    forall w :: w in a.held ==> w < |a.slotOf|
  }

  /** Frees the slot of `w` when gate `g` is its last use. */
  ghost function Released(c: Circuit, a: Arena, w: nat, g: nat): (r: Arena)
    requires Sized(a)
    ensures Sized(r) && r.slotOf == a.slotOf && r.next == a.next
  {
    if LastUse(c, w) == Some(g) && w in a.held
    then a.(held := a.held - {w}, free := a.free + {a.slotOf[w]})
    else a
  }

  /** The least free slot, or a new one. */
  ghost function Destination(a: Arena): (slot: nat)
    ensures if a.free != {} then slot in a.free else slot == a.next
  {
    if a.free != {} then Min(a.free) else a.next
  }

  /** The next wire gets the destination slot. */
  ghost function Placed(a: Arena): (r: Arena)
    requires Sized(a)
    ensures Sized(r) && r.slotOf == a.slotOf + [Destination(a)] && r.next >= a.next
  {
    var slot := Destination(a);
    Arena(a.slotOf + [slot], a.held + {|a.slotOf|}, a.free - {slot}, if a.free != {} then a.next else a.next + 1)
  }

  ghost function ReleasedBy(c: Circuit, a: Arena, g: nat): (r: Arena)
    requires Sized(a) && g < |c.gates|
    ensures Sized(r) && r.slotOf == a.slotOf && r.next == a.next
  {
    Released(c, Released(c, a, c.gates[g].left, g), c.gates[g].right, g)
  }

  /** The allocator's state before gate `g`. */
  ghost function ArenaAt(c: Circuit, g: nat): (a: Arena)
    requires g <= |c.gates|
    ensures Sized(a) && |a.slotOf| == c.inputCount + g
  {
    if g == 0 then StartArena(c) else Placed(ReleasedBy(c, ArenaAt(c, g - 1), g - 1))
  }

  // ---- the partition invariant ----

  /** Held and free slots are disjoint, no slot is held twice, and counting both gives `next`. */
  ghost predicate Partitioned(a: Arena)
    requires Sized(a)
  {
    && (forall w :: w in a.held ==> a.slotOf[w] < a.next && a.slotOf[w] !in a.free)
    && (forall v, w :: v in a.held && w in a.held && v != w ==> a.slotOf[v] != a.slotOf[w])
    && (forall s :: s in a.free ==> s < a.next)
    && |a.held| + |a.free| == a.next
  }

  /** The wires that occupy a slot before gate `g`: those still needed, and gates nobody reads. */
  predicate Occupies(c: Circuit, w: nat, g: nat) {
    w < c.inputCount + g && (NeededFrom(c, w, g) || (w >= c.inputCount && !Used(c, w)))
  }

  ghost predicate HoldsExactly(c: Circuit, a: Arena, g: nat) {
    forall w: nat :: w in a.held <==> Occupies(c, w, g)
  }

  lemma ReleasedKeepsPartition(c: Circuit, a: Arena, w: nat, g: nat)
    requires Sized(a) && Partitioned(a)
    ensures Partitioned(Released(c, a, w, g)) && Released(c, a, w, g).next == a.next
  {
  }

  lemma ReleasedByKeepsPartition(c: Circuit, a: Arena, g: nat)
    requires Sized(a) && Partitioned(a) && g < |c.gates|
    ensures Partitioned(ReleasedBy(c, a, g)) && ReleasedBy(c, a, g).next == a.next
  {
    ReleasedKeepsPartition(c, a, c.gates[g].left, g);
    ReleasedKeepsPartition(c, Released(c, a, c.gates[g].left, g), c.gates[g].right, g);
  }

  lemma PlacedKeepsPartition(a: Arena)
    requires Sized(a) && Partitioned(a)
    ensures Partitioned(Placed(a))
    ensures Placed(a).next == Max(a.next, |Placed(a).held|)
  {
    hide Destination;
    var b, slot := Placed(a), Destination(a);
    assert forall w :: w in a.held ==> b.slotOf[w] == a.slotOf[w] && a.slotOf[w] != slot;
    assert |b.held| == |a.held| + 1;
  }

  lemma StartIsPartitioned(c: Circuit)
    ensures Partitioned(StartArena(c)) && HoldsExactly(c, StartArena(c), 0)
  {
    hide LastUse, Below;
    var a := StartArena(c);
    assert a.held + a.free == Below(c.inputCount);
    assert |a.held + a.free| == |a.held| + |a.free|;
  }

  lemma StepHoldsExactly(c: Circuit, a: Arena, g: nat)
    requires Acyclic(c) && g < |c.gates| && Sized(a) && |a.slotOf| == c.inputCount + g && HoldsExactly(c, a, g)
    ensures HoldsExactly(c, Placed(ReleasedBy(c, a, g)), g + 1)
  {
    var b := Placed(ReleasedBy(c, a, g));
    forall w: nat ensures w in b.held <==> Occupies(c, w, g + 1) {
      LastUseIsLast(c, w);
    }
  }

  /** At every gate, held and free slots partition 0..next. */
  lemma {:induction false} ArenaIsPartitioned(c: Circuit, g: nat)
    requires g <= |c.gates|
    ensures Partitioned(ArenaAt(c, g))
  {
    hide Partitioned, ReleasedBy, Placed, StartArena;
    if g == 0 {
      StartIsPartitioned(c);
    } else {
      ArenaIsPartitioned(c, g - 1);
      ReleasedByKeepsPartition(c, ArenaAt(c, g - 1), g - 1);
      PlacedKeepsPartition(ReleasedBy(c, ArenaAt(c, g - 1), g - 1));
    }
  }

  /** At every gate, exactly the wires that are read later hold a slot (and gates nobody reads). */
  lemma {:induction false} ArenaHoldsExactly(c: Circuit, g: nat)
    requires Acyclic(c) && g <= |c.gates|
    ensures HoldsExactly(c, ArenaAt(c, g), g)
  {
    hide HoldsExactly, ReleasedBy, Placed, StartArena;
    if g == 0 {
      StartIsPartitioned(c);
    } else {
      ArenaHoldsExactly(c, g - 1);
      StepHoldsExactly(c, ArenaAt(c, g - 1), g - 1);
    }
  }

  ghost function HeldSlots(a: Arena): set<nat>
    requires Sized(a)
  {
    set w | w in a.held :: a.slotOf[w]
  }

  lemma {:induction false} HeldSlotsCount(a: Arena)
    requires Sized(a)
    requires forall v, w :: v in a.held && w in a.held && v != w ==> a.slotOf[v] != a.slotOf[w]
    ensures |HeldSlots(a)| == |a.held|
    decreases |a.held|
  {
    if w :| w in a.held {
      var rest := a.(held := a.held - {w});
      HeldSlotsCount(rest);
      assert HeldSlots(a) == HeldSlots(rest) + {a.slotOf[w]};
    }
  }

  lemma {:induction false} FullRange(p: set<nat>, n: nat)
    requires p <= Below(n) && |p| == n
    ensures p == Below(n)
  {
    var missing := Below(n) - p;
    assert p + missing == Below(n);
    assert |p + missing| == |p| + |missing|;
  }

  /** Held and free slots together are exactly the slots 0..next. */
  lemma PartitionCoversSlots(a: Arena)
    requires Sized(a) && Partitioned(a)
    ensures HeldSlots(a) !! a.free
    ensures HeldSlots(a) + a.free == Below(a.next)
  {
    HeldSlotsCount(a);
    assert |HeldSlots(a) + a.free| == |HeldSlots(a)| + |a.free|;
    FullRange(HeldSlots(a) + a.free, a.next);
  }

  // ---- the schedule ----

  /** The slot every wire is given. */
  ghost function SlotMap(c: Circuit): (m: seq<nat>)
    ensures |m| == c.WireCount()
  {
    ArenaAt(c, |c.gates|).slotOf
  }

  /** The first `k` scheduled gates. */
  ghost function ScheduledGates(c: Circuit, slotOf: seq<nat>, k: nat): (r: seq<SlotGate>)
    requires Acyclic(c) && k <= |c.gates| && c.inputCount + k <= |slotOf|
    ensures |r| == k
    ensures forall g :: 0 <= g < k ==> r[g] == SlotGateOf(c.gates[g], slotOf, slotOf[c.inputCount + g])
  {
    if k == 0 then []
    else ScheduledGates(c, slotOf, k - 1) + [SlotGateOf(c.gates[k - 1], slotOf, slotOf[c.inputCount + k - 1])]
  }

  ghost function Derived(c: Circuit): (s: Schedule)
    requires Acyclic(c)
  {
    Schedule(c.inputCount, ArenaAt(c, |c.gates|).next,
             ScheduledGates(c, SlotMap(c), |c.gates|), Select(SlotMap(c), c.outputs))
  }

  /** Later states only add slots: no wire ever moves. */
  lemma {:induction false} SlotsArePermanent(c: Circuit, g: nat, h: nat)
    requires g <= h <= |c.gates|
    ensures ArenaAt(c, g).slotOf <= ArenaAt(c, h).slotOf && ArenaAt(c, g).next <= ArenaAt(c, h).next
  {
    hide ReleasedBy, Placed, Destination;
    if g < h { SlotsArePermanent(c, g, h - 1); }
  }

  lemma SlotInRange(c: Circuit, w: nat)
    requires Acyclic(c) && w < c.WireCount()
    ensures SlotMap(c)[w] < ArenaAt(c, |c.gates|).next
  {
    var g := if w < c.inputCount then 0 else w - c.inputCount + 1;
    ArenaIsPartitioned(c, g);
    SlotsArePermanent(c, g, |c.gates|);
  }

  lemma PlacementSpares(c: Circuit, g: nat)
    requires Acyclic(c) && g < |c.gates|
    ensures Spares(c, SlotMap(c), g)
  {
    hide LastUse, ReleasedBy, Destination;
    ArenaIsPartitioned(c, g + 1);
    ArenaHoldsExactly(c, g + 1);
    SlotsArePermanent(c, g + 1, |c.gates|);
    forall w | 0 <= w < c.inputCount + g && NeededAfter(c, w, g)
      ensures SlotMap(c)[w] != SlotMap(c)[c.inputCount + g]
    {
      assert Occupies(c, w, g + 1);
    }
  }

  /** The canonical schedule is an allocation of its circuit: it never destroys a needed value. */
  lemma DerivedAllocates(c: Circuit)
    requires Acyclic(c)
    ensures Allocates(c, Derived(c), SlotMap(c))
  {
    SlotsArePermanent(c, 0, |c.gates|);
    forall w | 0 <= w < c.WireCount() ensures SlotMap(c)[w] < Derived(c).slotCount { SlotInRange(c, w); }
    forall g | 0 <= g < |c.gates| ensures Spares(c, SlotMap(c), g) { PlacementSpares(c, g); }
  }

  /** Running the derived slot schedule yields the outputs of the IR, for every meaning of the gates,
      every input and whatever the unused slots held before. */
  lemma DerivedScheduleIsCorrect<T>(c: Circuit, inputs: seq<T>, arena: seq<T>, step: GateStep<T>)
    requires Acyclic(c) && |inputs| == c.inputCount
    requires |arena| == Derived(c).slotCount && inputs <= arena
    ensures InRange(Derived(c))
    ensures RunSlotOutputs(Derived(c), arena, step) == RunOutputs(c, inputs, step)
  {
    DerivedAllocates(c);
    AllocationPreservesMeaning(c, Derived(c), SlotMap(c), inputs, arena, step);
  }

  /** The output slots are pairwise distinct, as the schedule parser demands. */
  lemma OutputSlotsAreDistinct(c: Circuit)
    requires Acyclic(c) && Distinct(c.outputs)
    ensures Distinct(Derived(c).outputs)
  {
    ArenaIsPartitioned(c, |c.gates|);
    ArenaHoldsExactly(c, |c.gates|);
    forall i, j | 0 <= i < j < |c.outputs| ensures Derived(c).outputs[i] != Derived(c).outputs[j] {
      LastUseIsLast(c, c.outputs[i]);
      LastUseIsLast(c, c.outputs[j]);
      assert Occupies(c, c.outputs[i], |c.gates|) && Occupies(c, c.outputs[j], |c.gates|);
    }
  }

  // ---- optimality ----

  /** The greatest number of wires that are live together after one of the first `g` gates. */
  function PeakLive(c: Circuit, g: nat): nat {
    if g == 0 then 0 else Max(PeakLive(c, g - 1), |LiveAfter(c, g - 1)|)
  }

  /** When every gate is live, a wire holds a slot before gate `g` exactly when it is needed after gate `g - 1`. */
  lemma OccupantIsNeeded(c: Circuit, w: nat, g: nat)
    requires AllLive(c) && 0 < g <= |c.gates| && w < c.inputCount + g
    ensures Occupies(c, w, g) <==> NeededAfter(c, w, g - 1)
  {
    if w >= c.inputCount {
      assert LiveGate(c, w - c.inputCount);
      LiveWireIsUsed(c, w);
    }
  }

  lemma HeldIsLive(c: Circuit, g: nat)
    requires Acyclic(c) && AllLive(c) && 0 < g <= |c.gates|
    ensures ArenaAt(c, g).held == LiveAfter(c, g - 1)
  {
    hide AllLive, ArenaAt, NeededAfter;
    ArenaHoldsExactly(c, g);
    forall w: nat | w < c.inputCount + g ensures Occupies(c, w, g) <==> NeededAfter(c, w, g - 1) {
      OccupantIsNeeded(c, w, g);
    }
  }

  lemma StepNext(c: Circuit, g: nat)
    requires Acyclic(c) && g < |c.gates|
    ensures ArenaAt(c, g + 1).next == Max(ArenaAt(c, g).next, |ArenaAt(c, g + 1).held|)
  {
    ArenaIsPartitioned(c, g);
    ReleasedByKeepsPartition(c, ArenaAt(c, g), g);
    PlacedKeepsPartition(ReleasedBy(c, ArenaAt(c, g), g));
  }

  lemma {:induction false} NextIsPeak(c: Circuit, g: nat)
    requires Acyclic(c) && AllLive(c) && g <= |c.gates|
    ensures ArenaAt(c, g).next == Max(c.inputCount, PeakLive(c, g))
  {
    hide ReleasedBy, Placed, LiveAfter, AllLive;
    if g > 0 {
      NextIsPeak(c, g - 1);
      StepNext(c, g - 1);
      HeldIsLive(c, g);
    }
  }

  /** With every gate live, the slot count is exactly max(inputs, peak number of live wires). */
  lemma SlotCountIsPeak(c: Circuit)
    requires Acyclic(c) && AllLive(c)
    ensures Derived(c).slotCount == Max(c.inputCount, PeakLive(c, |c.gates|))
  {
    NextIsPeak(c, |c.gates|);
  }

  lemma {:induction false} AllocationNeedsPeak(c: Circuit, s: Schedule, slotOf: seq<nat>, g: nat)
    requires Acyclic(c) && Allocates(c, s, slotOf) && g <= |c.gates|
    ensures PeakLive(c, g) <= s.slotCount
  {
    if g > 0 {
      AllocationNeedsPeak(c, s, slotOf, g - 1);
      AllocationNeedsLiveSlots(c, s, slotOf, g - 1);
    }
  }

  /** No allocation of a circuit without dead gates uses fewer slots than the derived one. */
  lemma DerivedSlotCountIsOptimal(c: Circuit, s: Schedule, slotOf: seq<nat>)
    requires Acyclic(c) && AllLive(c) && Allocates(c, s, slotOf)
    ensures Derived(c).slotCount <= s.slotCount
  {
    SlotCountIsPeak(c);
    AllocationNeedsPeak(c, s, slotOf, |c.gates|);
  }
}
