/** A reference semantics for the statistics pass on well-nested event
    streams. A profile that opens and closes its calls properly is a forest
    of calls; folding the forest charges each call's inclusive cost (exit
    reading minus entry reading) and exclusive cost (inclusive minus the
    inclusive cost of its direct children) without any stack. The main
    theorem says the stack-based walk computes the same table. */
module CallTrees {
  import opened ProfileData
  import opened StatsEngine

  /** One call: the function, the metrics read on entry, the calls it made,
      and the metrics read on exit. */
  datatype Call = Call(funcIdx: int, enter: MetricValues, children: seq<Call>, exit: MetricValues)

  /** The events a call produces: its start, its children's events, its end. */
  function CallEvents(c: Call): seq<Event>
  {
    [Event(c.funcIdx, true, c.enter)] + ForestEvents(c.children) + [Event(c.funcIdx, false, c.exit)]
  }

  function ForestEvents(cs: seq<Call>): seq<Event>
  {
    if cs == [] then [] else CallEvents(cs[0]) + ForestEvents(cs[1..])
  }

  /** Cost of a call including everything it called. */
  function Inclusive(c: Call): Cost
  {
    Elapsed(c.enter, c.exit)
  }

  /** Summed inclusive cost of a list of sibling calls. */
  function RootsInclusive(cs: seq<Call>): Cost
  {
    if cs == [] then Zero else Inclusive(cs[0]).Plus(RootsInclusive(cs[1..]))
  }

  /** Cost of a call less the inclusive cost of its direct children. */
  function Exclusive(c: Call): Cost
  {
    Inclusive(c).Minus(RootsInclusive(c.children))
  }

  /** The table after a call, by structure: count the call, fold its
      children, then charge its own inclusive and exclusive cost. */
  function ApplyCall(names: seq<string>, t: StatsTable, c: Call): StatsTable
    decreases c
  {
    var t1 := Begin(names, t, c.funcIdx);
    var t2 := ApplyForest(names, t1, c.children);
    Credit(names, t2, c.funcIdx, Inclusive(c), Exclusive(c))
  }

  function ApplyForest(names: seq<string>, t: StatsTable, cs: seq<Call>): StatsTable
    decreases cs
  {
    if cs == [] then t else ApplyForest(names, ApplyCall(names, t, cs[0]), cs[1..])
  }

  // ---------------------------------------------------------------------
  // The walk computes the reference table
  // ---------------------------------------------------------------------

  lemma ChargeZero(stack: seq<Frame>)
    ensures Charge(stack, Zero) == stack
  {
    if stack != [] {
      assert stack[..|stack| - 1] + [stack[|stack| - 1]] == stack;
    }
  }

  lemma ChargeTwice(stack: seq<Frame>, a: Cost, b: Cost)
    ensures Charge(Charge(stack, a), b) == Charge(stack, a.Plus(b))
  {
    if stack != [] {
      var once := Charge(stack, a);
      assert once[..|once| - 1] == stack[..|stack| - 1];
    }
  }

  lemma ReplayedOne(names: seq<string>, start: Replay, e: Event)
    ensures Replayed(names, start, [e]) == Step(names, start, e)
  {
    assert [e][..0] == [];
  }

  /** The events of one call, walked from any table and stack, go through;
      they leave the table ApplyCall gives and the stack as it was, except
      that the frame on top has the call's inclusive cost added to its
      children. */
  lemma {:induction false} ReplayCall(names: seq<string>, t: StatsTable, stack: seq<Frame>, c: Call)
    ensures Replayed(names, Replay(t, stack), CallEvents(c))
            == Running(Replay(ApplyCall(names, t, c), Charge(stack, Inclusive(c))))
    decreases c, 1
  {
    var f := c.funcIdx;
    var open := Event(f, true, c.enter);
    var close := Event(f, false, c.exit);
    var inner := ForestEvents(c.children);
    var start := Replay(t, stack);
    var frame := Frame(f, c.enter, Zero);
    var t1 := Begin(names, t, f);
    ReplayedOne(names, start, open);
    ReplayedAppend(names, start, [open], inner);
    ReplayForest(names, t1, stack + [frame], c.children);
    var t2 := ApplyForest(names, t1, c.children);
    var stack2 := Charge(stack + [frame], RootsInclusive(c.children));
    assert (stack + [frame])[..|stack + [frame]| - 1] == stack;
    ReplayedAppend(names, start, [open] + inner, [close]);
    ReplayedOne(names, Replay(t2, stack2), close);
    assert stack2[..|stack2| - 1] == stack;
  }

  /** The events of a list of sibling calls, walked from any table and
      stack, go through; they leave the table ApplyForest gives and add the
      siblings' summed inclusive cost to the children of the frame on top. */
  lemma {:induction false} ReplayForest(names: seq<string>, t: StatsTable, stack: seq<Frame>, cs: seq<Call>)
    ensures Replayed(names, Replay(t, stack), ForestEvents(cs))
            == Running(Replay(ApplyForest(names, t, cs), Charge(stack, RootsInclusive(cs))))
    decreases cs, 0
  {
    if cs == [] {
      ChargeZero(stack);
    } else {
      var start := Replay(t, stack);
      ReplayedAppend(names, start, CallEvents(cs[0]), ForestEvents(cs[1..]));
      ReplayCall(names, t, stack, cs[0]);
      var t1 := ApplyCall(names, t, cs[0]);
      var stack1 := Charge(stack, Inclusive(cs[0]));
      ReplayForest(names, t1, stack1, cs[1..]);
      ChargeTwice(stack, Inclusive(cs[0]), RootsInclusive(cs[1..]));
    }
  }

  /** A well-nested profile always goes through the whole statistics pass:
      no underflow, no mismatch, and an empty stack at the end. Its table is
      the one the structural fold gives. */
  lemma WellNested(names: seq<string>, t: StatsTable, cs: seq<Call>)
    ensures Run(names, t, ForestEvents(cs)) == Running(Replay(ApplyForest(names, t, cs), []))
  {
    ReplayForest(names, t, [], cs);
  }

  // ---------------------------------------------------------------------
  // Per-function totals
  // ---------------------------------------------------------------------

  /** What the table records about one function. */
  datatype Totals = Totals(calls: nat, inclusive: Cost, exclusive: Cost)
  {
    function Add(other: Totals): Totals
    {
      Totals(calls + other.calls, inclusive.Plus(other.inclusive), exclusive.Plus(other.exclusive))
    }
  }

  const NoTotals: Totals := Totals(0, Zero, Zero)

  /** The totals the table holds for f, zero without an entry. */
  function TotalsAt(t: StatsTable, f: int): Totals
  {
    if f in t.entries then
      var s := t.entries[f];
      Totals(s.callCount, s.inclusive, s.exclusive)
    else NoTotals
  }

  /** The totals of f over a call and everything under it: one call and the
      call's costs when it is a call of f, plus its children's totals. */
  function TotalsIn(c: Call, f: int): Totals
    decreases c
  {
    var own := if c.funcIdx == f then Totals(1, Inclusive(c), Exclusive(c)) else NoTotals;
    own.Add(TotalsOf(c.children, f))
  }

  function TotalsOf(cs: seq<Call>, f: int): Totals
    decreases cs
  {
    if cs == [] then NoTotals else TotalsIn(cs[0], f).Add(TotalsOf(cs[1..], f))
  }

  /** Counting a call of g adds one call to g's totals and nothing else. */
  lemma BeginAt(names: seq<string>, t: StatsTable, g: int, f: int)
    ensures f == g ==> TotalsAt(Begin(names, t, g), f)
                       == Totals(TotalsAt(t, f).calls + 1, TotalsAt(t, f).inclusive, TotalsAt(t, f).exclusive)
    ensures f != g ==> TotalsAt(Begin(names, t, g), f) == TotalsAt(t, f)
  {
    if f == g {
      var a := TotalsAt(t, f);
      var b := TotalsAt(Begin(names, t, g), f);
      assert b.calls == a.calls + 1;
      assert b.inclusive == a.inclusive;
      assert b.exclusive == a.exclusive;
    }
  }

  /** Crediting costs to g adds them to g's totals and nothing else. */
  lemma CreditAt(names: seq<string>, t: StatsTable, g: int, f: int, inclusive: Cost, exclusive: Cost)
    ensures f == g ==> TotalsAt(Credit(names, t, g, inclusive, exclusive), f)
                       == Totals(TotalsAt(t, f).calls, TotalsAt(t, f).inclusive.Plus(inclusive),
                                 TotalsAt(t, f).exclusive.Plus(exclusive))
    ensures f != g ==> TotalsAt(Credit(names, t, g, inclusive, exclusive), f) == TotalsAt(t, f)
  {
    if f == g {
      var a := TotalsAt(t, f);
      var b := TotalsAt(Credit(names, t, g, inclusive, exclusive), f);
      assert b.calls == a.calls;
      assert b.inclusive == a.inclusive.Plus(inclusive);
      assert b.exclusive == a.exclusive.Plus(exclusive);
    }
  }

  lemma AddAssoc(a: Totals, b: Totals, c: Totals)
    ensures a.Add(b).Add(c) == a.Add(b.Add(c))
  {
  }

  lemma AddNone(a: Totals)
    ensures a.Add(NoTotals) == a && NoTotals.Add(a) == a
  {
  }

  /** Counting a call first, then the calls below it, then crediting its
      costs adds up to the same as adding its own totals and those below. */
  lemma OwnCall(a: Totals, below: Totals, inclusive: Cost, exclusive: Cost)
    ensures var x := Totals(a.calls + 1, a.inclusive, a.exclusive).Add(below);
            Totals(x.calls, x.inclusive.Plus(inclusive), x.exclusive.Plus(exclusive))
            == a.Add(Totals(1, inclusive, exclusive).Add(below))
  {
  }

  /** Folding a call adds its totals for f to the table's. */
  lemma {:induction false} ApplyCallTotals(names: seq<string>, t: StatsTable, c: Call, f: int)
    ensures TotalsAt(ApplyCall(names, t, c), f) == TotalsAt(t, f).Add(TotalsIn(c, f))
    decreases c, 1
  {
    var t1 := Begin(names, t, c.funcIdx);
    var t2 := ApplyForest(names, t1, c.children);
    var a := TotalsAt(t, f);
    var below := TotalsOf(c.children, f);
    BeginAt(names, t, c.funcIdx, f);
    ApplyForestTotals(names, t1, c.children, f);
    CreditAt(names, t2, c.funcIdx, f, Inclusive(c), Exclusive(c));
    if c.funcIdx == f {
      OwnCall(a, below, Inclusive(c), Exclusive(c));
    } else {
      AddNone(below);
    }
  }

  lemma {:induction false} ApplyForestTotals(names: seq<string>, t: StatsTable, cs: seq<Call>, f: int)
    ensures TotalsAt(ApplyForest(names, t, cs), f) == TotalsAt(t, f).Add(TotalsOf(cs, f))
    decreases cs, 0
  {
    if cs == [] {
      AddNone(TotalsAt(t, f));
    } else {
      ApplyCallTotals(names, t, cs[0], f);
      ApplyForestTotals(names, ApplyCall(names, t, cs[0]), cs[1..], f);
      AddAssoc(TotalsAt(t, f), TotalsIn(cs[0], f), TotalsOf(cs[1..], f));
    }
  }

  /** Parsing a well-nested profile into an empty table gives every
      function the number of its calls, the sum of their inclusive costs
      and the sum of their exclusive costs. */
  lemma ParsedTotals(names: seq<string>, cs: seq<Call>, f: int)
    ensures Run(names, EmptyTable, ForestEvents(cs)).Running?
    ensures TotalsAt(Run(names, EmptyTable, ForestEvents(cs)).state.table, f) == TotalsOf(cs, f)
  {
    WellNested(names, EmptyTable, cs);
    ApplyForestTotals(names, EmptyTable, cs, f);
  }

  // ---------------------------------------------------------------------
  // Consequences
  // ---------------------------------------------------------------------

  /** Every call of f in the call and below it is a leaf. */
  predicate LeafIn(c: Call, f: int)
    decreases c
  {
    (c.funcIdx == f ==> c.children == []) && LeafOnly(c.children, f)
  }

  predicate LeafOnly(cs: seq<Call>, f: int)
    decreases cs
  {
    cs != [] ==> LeafIn(cs[0], f) && LeafOnly(cs[1..], f)
  }

  lemma {:induction false} LeafCallTotals(c: Call, f: int)
    requires LeafIn(c, f)
    ensures TotalsIn(c, f).inclusive == TotalsIn(c, f).exclusive
    decreases c, 1
  {
    LeafForestTotals(c.children, f);
  }

  /** A function that never calls anything has equal inclusive and
      exclusive totals over a whole forest. */
  lemma {:induction false} LeafForestTotals(cs: seq<Call>, f: int)
    requires LeafOnly(cs, f)
    ensures TotalsOf(cs, f).inclusive == TotalsOf(cs, f).exclusive
    decreases cs, 0
  {
    if cs != [] {
      LeafCallTotals(cs[0], f);
      LeafForestTotals(cs[1..], f);
    }
  }

  /** The leaf rule on the parsed table: when every call of f in a
      well-nested profile is a leaf, f's inclusive cost equals its exclusive
      cost. */
  lemma ParsedLeaf(names: seq<string>, cs: seq<Call>, f: int)
    requires LeafOnly(cs, f)
    ensures Run(names, EmptyTable, ForestEvents(cs)).Running?
    ensures var t := Run(names, EmptyTable, ForestEvents(cs)).state.table;
            f in t.entries ==> t.entries[f].inclusive == t.entries[f].exclusive
  {
    ParsedTotals(names, cs, f);
    LeafForestTotals(cs, f);
  }

  /** The exclusive costs of all calls below and including c. */
  function ExclusiveIn(c: Call): Cost
    decreases c
  {
    Exclusive(c).Plus(ExclusiveSum(c.children))
  }

  function ExclusiveSum(cs: seq<Call>): Cost
    decreases cs
  {
    if cs == [] then Zero else ExclusiveIn(cs[0]).Plus(ExclusiveSum(cs[1..]))
  }

  lemma {:induction false} CallConservation(c: Call)
    ensures ExclusiveIn(c) == Inclusive(c)
    decreases c, 1
  {
    ForestConservation(c.children);
  }

  /** Exclusive costs split the top-level calls' inclusive cost without
      loss or overlap: summed over every call of a forest they give the
      roots' inclusive cost. */
  lemma {:induction false} ForestConservation(cs: seq<Call>)
    ensures ExclusiveSum(cs) == RootsInclusive(cs)
    decreases cs, 0
  {
    if cs != [] {
      CallConservation(cs[0]);
      ForestConservation(cs[1..]);
    }
  }

  predicate NonNegative(x: Cost)
  {
    x.time >= 0.0 && x.memory >= 0.0 && x.cpu >= 0.0
  }

  predicate AtMost(x: Cost, y: Cost)
  {
    x.time <= y.time && x.memory <= y.memory && x.cpu <= y.cpu
  }

  /** No reading goes down between a call's entry and its exit, in the
      call and everywhere below it. */
  predicate ForwardIn(c: Call)
    decreases c
  {
    NonNegative(Inclusive(c)) && Forward(c.children)
  }

  predicate Forward(cs: seq<Call>)
    decreases cs
  {
    cs != [] ==> ForwardIn(cs[0]) && Forward(cs[1..])
  }

  lemma {:induction false} ForwardRoots(cs: seq<Call>)
    requires Forward(cs)
    ensures NonNegative(RootsInclusive(cs))
  {
    if cs != [] {
      ForwardRoots(cs[1..]);
    }
  }

  lemma {:induction false} ForwardCallTotals(c: Call, f: int)
    requires ForwardIn(c)
    ensures AtMost(TotalsIn(c, f).exclusive, TotalsIn(c, f).inclusive)
    decreases c, 1
  {
    ForwardRoots(c.children);
    ForwardForestTotals(c.children, f);
  }

  /** When readings never go down, every function's exclusive totals are at
      most its inclusive totals. */
  lemma {:induction false} ForwardForestTotals(cs: seq<Call>, f: int)
    requires Forward(cs)
    ensures AtMost(TotalsOf(cs, f).exclusive, TotalsOf(cs, f).inclusive)
    decreases cs, 0
  {
    if cs != [] {
      ForwardCallTotals(cs[0], f);
      ForwardForestTotals(cs[1..], f);
    }
  }

  /** The same on the parsed table. */
  lemma ParsedForward(names: seq<string>, cs: seq<Call>, f: int)
    requires Forward(cs)
    ensures Run(names, EmptyTable, ForestEvents(cs)).Running?
    ensures var t := Run(names, EmptyTable, ForestEvents(cs)).state.table;
            f in t.entries ==> AtMost(t.entries[f].exclusive, t.entries[f].inclusive)
  {
    ParsedTotals(names, cs, f);
    ForwardForestTotals(cs, f);
  }

  lemma CostAlgebra(x: Cost, y: Cost)
    ensures x.Plus(Zero) == x && x.Minus(Zero) == x
    ensures x.Minus(y).Plus(y) == x
  {
  }

  lemma SingleCall(c: Call, f: int)
    ensures TotalsOf([c], f) == TotalsIn(c, f)
  {
    assert [c][1..] == [];
    AddNone(TotalsIn(c, f));
  }

  lemma ChildlessTotals(c: Call, f: int)
    requires c.children == []
    ensures TotalsIn(c, f) == if c.funcIdx == f then Totals(1, Inclusive(c), Exclusive(c)) else NoTotals
  {
    var own := if c.funcIdx == f then Totals(1, Inclusive(c), Exclusive(c)) else NoTotals;
    assert TotalsOf(c.children, f) == NoTotals;
    AddNone(own);
  }

  lemma ChildlessExclusive(c: Call)
    requires c.children == []
    ensures Exclusive(c) == Inclusive(c)
  {
    CostAlgebra(Inclusive(c), Zero);
  }

  /** A call without children counts once for its own function, with equal
      inclusive and exclusive cost, and not at all for another. */
  lemma LeafCall(c: Call, f: int)
    requires c.children == []
    ensures TotalsOf([c], f) == if c.funcIdx == f then Totals(1, Inclusive(c), Inclusive(c)) else NoTotals
  {
    SingleCall(c, f);
    ChildlessTotals(c, f);
    ChildlessExclusive(c);
  }

  /** The totals of a call whose only call is a leaf. */
  lemma OneChild(parent: Call, f: int)
    requires |parent.children| == 1 && parent.children[0].children == []
    ensures var child := parent.children[0];
            TotalsOf([parent], f)
            == (if parent.funcIdx == f then Totals(1, Inclusive(parent), Inclusive(parent).Minus(Inclusive(child)))
                else NoTotals).Add(if child.funcIdx == f then Totals(1, Inclusive(child), Inclusive(child)) else NoTotals)
  {
    var child := parent.children[0];
    assert parent.children == [child];
    assert [child][1..] == [];
    assert [parent][1..] == [];
    CostAlgebra(Inclusive(child), Zero);
    assert RootsInclusive([child]) == Inclusive(child);
    LeafCall(child, f);
    AddNone(TotalsIn(parent, f));
  }

  /** The totals of a call whose only call is a leaf call of another
      function. */
  lemma ParentChildTotals(parent: Call)
    requires |parent.children| == 1 && parent.children[0].children == []
    requires parent.funcIdx != parent.children[0].funcIdx
    ensures var child := parent.children[0];
            TotalsOf([parent], parent.funcIdx)
            == Totals(1, Inclusive(parent), Inclusive(parent).Minus(Inclusive(child)))
            && TotalsOf([parent], child.funcIdx) == Totals(1, Inclusive(child), Inclusive(child))
  {
    var child := parent.children[0];
    var own := Totals(1, Inclusive(parent), Inclusive(parent).Minus(Inclusive(child)));
    var leaf := Totals(1, Inclusive(child), Inclusive(child));
    OneChild(parent, parent.funcIdx);
    assert TotalsOf([parent], parent.funcIdx) == own.Add(NoTotals);
    OneChild(parent, child.funcIdx);
    assert TotalsOf([parent], child.funcIdx) == NoTotals.Add(leaf);
    AddNone(own);
    AddNone(leaf);
  }

  /** Reading a table entry off its totals. */
  lemma EntryOf(t: StatsTable, f: int, x: Totals)
    requires TotalsAt(t, f) == x && x.calls > 0
    ensures f in t.entries
    ensures t.entries[f].callCount == x.calls
    ensures t.entries[f].inclusive == x.inclusive && t.entries[f].exclusive == x.exclusive
  {
  }

  /** The events of a call whose only call is a leaf: start of the parent,
      start and end of the child, end of the parent. */
  lemma ParentChildEvents(parent: Call)
    requires |parent.children| == 1 && parent.children[0].children == []
    ensures var child := parent.children[0];
            ForestEvents([parent])
            == [Event(parent.funcIdx, true, parent.enter), Event(child.funcIdx, true, child.enter),
                Event(child.funcIdx, false, child.exit), Event(parent.funcIdx, false, parent.exit)]
  {
    var child := parent.children[0];
    assert parent.children == [child];
    assert [child][1..] == [] && [parent][1..] == [];
    assert ForestEvents([]) == [];
    assert ForestEvents([child]) == CallEvents(child) + [];
    assert CallEvents(child) == [Event(child.funcIdx, true, child.enter)] + [] + [Event(child.funcIdx, false, child.exit)];
    assert ForestEvents([parent]) == CallEvents(parent) + [];
  }

  /** A profile made of one call of a function P whose only call is a leaf
      call of another function C parses without error: each function is
      counted once, C's inclusive and exclusive costs are both its elapsed
      cost, and P's exclusive cost is its inclusive cost less C's inclusive
      cost. */
  lemma ParentChild(names: seq<string>, parent: Call)
    requires |parent.children| == 1 && parent.children[0].children == []
    requires parent.funcIdx != parent.children[0].funcIdx
    ensures Run(names, EmptyTable, ForestEvents([parent])).Running?
    ensures var t := Run(names, EmptyTable, ForestEvents([parent])).state.table;
            var p := parent.funcIdx;
            var c := parent.children[0].funcIdx;
            p in t.entries && c in t.entries
            && t.entries[p].callCount == 1 && t.entries[c].callCount == 1
            && t.entries[p].inclusive == Elapsed(parent.enter, parent.exit)
            && t.entries[c].inclusive == Elapsed(parent.children[0].enter, parent.children[0].exit)
            && t.entries[c].exclusive == t.entries[c].inclusive
            && t.entries[p].exclusive == t.entries[p].inclusive.Minus(t.entries[c].inclusive)
  {
    var child := parent.children[0];
    ParsedTotals(names, [parent], parent.funcIdx);
    ParsedTotals(names, [parent], child.funcIdx);
    ParentChildTotals(parent);
    var t := Run(names, EmptyTable, ForestEvents([parent])).state.table;
    EntryOf(t, parent.funcIdx, Totals(1, Inclusive(parent), Inclusive(parent).Minus(Inclusive(child))));
    EntryOf(t, child.funcIdx, Totals(1, Inclusive(child), Inclusive(child)));
  }

  /** Without any correction for recursion, a function that calls itself
      once counts the inner call's cost twice in its inclusive total, while
      its exclusive total is the outer call's inclusive cost. */
  lemma SelfCall(p: int, m0: MetricValues, m1: MetricValues, m2: MetricValues, m3: MetricValues)
    ensures var inner := Call(p, m1, [], m2);
            var outer := Call(p, m0, [inner], m3);
            TotalsOf([outer], p) == Totals(2, Inclusive(outer).Plus(Inclusive(inner)), Inclusive(outer))
  {
    var inner := Call(p, m1, [], m2);
    var outer := Call(p, m0, [inner], m3);
    OneChild(outer, p);
    CostAlgebra(Inclusive(outer), Inclusive(inner));
  }

  // ---------------------------------------------------------------------
  // A worked example
  // ---------------------------------------------------------------------

  /** The readings of one event carrying wall time, memory and CPU time. */
  function Readings(wt: real, mu: real, ct: real): MetricValues
  {
    map[WallTimeKey := wt, MemoryKey := mu, CpuTimeKey := ct]
  }

  lemma ElapsedReadings(a: Cost, b: Cost)
    ensures Elapsed(Readings(a.time, a.memory, a.cpu), Readings(b.time, b.memory, b.cpu)) == b.Minus(a)
  {
    assert WallTimeKey[0] != MemoryKey[0] && WallTimeKey[0] != CpuTimeKey[0] && MemoryKey[0] != CpuTimeKey[0];
  }

  /** `main` (function 0) starts at 0, calls `work` (function 1) from 1000
      to 5000 microseconds, and ends at 6000: both are counted once, work's
      inclusive time is 4000, and main's exclusive time is 6000 - 4000. */
  lemma MainCallsWork()
    ensures var events := [Event(0, true, Readings(0.0, 0.0, 0.0)),
                           Event(1, true, Readings(1000.0, 100.0, 800.0)),
                           Event(1, false, Readings(5000.0, 500.0, 4000.0)),
                           Event(0, false, Readings(6000.0, 600.0, 4800.0))];
            var r := Run(["main", "work"], EmptyTable, events);
            r.Running?
            && r.state.table.entries.Keys >= {0, 1}
            && r.state.table.entries[0].name == "main" && r.state.table.entries[1].name == "work"
            && r.state.table.entries[0].callCount == 1 && r.state.table.entries[1].callCount == 1
            && r.state.table.entries[1].inclusive == Cost(4000.0, 400.0, 3200.0)
            && r.state.table.entries[1].exclusive == Cost(4000.0, 400.0, 3200.0)
            && r.state.table.entries[0].inclusive == Cost(6000.0, 600.0, 4800.0)
            && r.state.table.entries[0].exclusive == Cost(2000.0, 200.0, 1600.0)
  {
    var work := Call(1, Readings(1000.0, 100.0, 800.0), [], Readings(5000.0, 500.0, 4000.0));
    var main := Call(0, Readings(0.0, 0.0, 0.0), [work], Readings(6000.0, 600.0, 4800.0));
    ParentChildEvents(main);
    ParentChild(["main", "work"], main);
    ElapsedReadings(Cost(1000.0, 100.0, 800.0), Cost(5000.0, 500.0, 4000.0));
    ElapsedReadings(Cost(0.0, 0.0, 0.0), Cost(6000.0, 600.0, 4800.0));
    RunTable(["main", "work"], EmptyTable, ForestEvents([main]));
  }
}
