/** The statistics pass of the profile parser: one walk over the decoded
    events that pushes a frame for every start event, pops one for every
    end event, and charges inclusive and exclusive cost to the function
    table. This module states that walk as pure functions over values; the
    ProfileParser class runs it as a loop and is proved against it. */
module StatsEngine {
  import opened ProfileData

  // ---------------------------------------------------------------------
  // Values
  // ---------------------------------------------------------------------

  /** Wall time, memory and CPU time: the three quantities charged to a
      function and accumulated by a frame for its children. */
  datatype Cost = Cost(time: real, memory: real, cpu: real)
  {
    function Plus(other: Cost): Cost
    {
      Cost(time + other.time, memory + other.memory, cpu + other.cpu)
    }

    function Minus(other: Cost): Cost
    {
      Cost(time - other.time, memory - other.memory, cpu - other.cpu)
    }
  }

  const Zero: Cost := Cost(0.0, 0.0, 0.0)

  /** One row of the function table. */
  datatype FunctionStats = FunctionStats(name: string, callCount: nat, inclusive: Cost, exclusive: Cost)

  /** The function table: an insertion-ordered dictionary from function
      index to its statistics, as a PHP array keeps it. */
  datatype StatsTable = StatsTable(order: seq<int>, entries: map<int, FunctionStats>)
  {
    /** The key order lists every key once and nothing else. */
    ghost predicate Valid()
    {
      Distinct(order) && forall f :: f in entries <==> f in order
    }
  }

  const EmptyTable: StatsTable := StatsTable([], map[])

  /** The entries of the table in key order, as PHP iterates an array. */
  function ValuesOf(order: seq<int>, entries: map<int, FunctionStats>): (vs: seq<FunctionStats>)
    requires forall i :: 0 <= i < |order| ==> order[i] in entries
    ensures |vs| == |order|
    ensures forall i :: 0 <= i < |order| ==> vs[i] == entries[order[i]]
  {
    if order == [] then []
    else ValuesOf(order[..|order| - 1], entries) + [entries[order[|order| - 1]]]
  }

  /** Every key a valid table lists has an entry. */
  lemma OrderListed(t: StatsTable)
    requires t.Valid()
    ensures forall i :: 0 <= i < |t.order| ==> t.order[i] in t.entries
  {
    forall i | 0 <= i < |t.order| ensures t.order[i] in t.entries {
      var g := t.order[i];
      assert g in t.order;
      assert g in t.order <==> g in t.entries;
    }
  }

  /** Listing one more key adds its entry at the end. */
  lemma ValuesOfSnoc(order: seq<int>, f: int, entries: map<int, FunctionStats>)
    requires forall i :: 0 <= i < |order| ==> order[i] in entries
    requires f in entries
    ensures ValuesOf(order + [f], entries) == ValuesOf(order, entries) + [entries[f]]
  {
    assert (order + [f])[..|order|] == order;
  }

  /** Two maps that agree on the listed keys list the same values. */
  lemma ValuesOfAgree(order: seq<int>, e1: map<int, FunctionStats>, e2: map<int, FunctionStats>)
    requires forall i :: 0 <= i < |order| ==> order[i] in e1 && order[i] in e2 && e1[order[i]] == e2[order[i]]
    ensures ValuesOf(order, e1) == ValuesOf(order, e2)
  {
  }

  function Values(t: StatsTable): (vs: seq<FunctionStats>)
    requires t.Valid()
    ensures |vs| == |t.entries|
  {
    DistinctCard(t.order, t.entries.Keys);
    ValuesOf(t.order, t.entries)
  }

  /** A list without repeats has as many elements as the set it lists. */
  lemma {:induction false} DistinctCard(order: seq<int>, keys: set<int>)
    requires Distinct(order) && forall f :: f in keys <==> f in order
    ensures |keys| == |order|
  {
    if order != [] {
      var last := order[|order| - 1];
      var front := order[..|order| - 1];
      assert Distinct(front) by {
        forall i, j | 0 <= i < j < |front| ensures front[i] != front[j] {
          assert front[i] == order[i] && front[j] == order[j];
        }
      }
      assert last !in front by {
        forall i | 0 <= i < |front| ensures front[i] != last {
          assert front[i] == order[i];
        }
      }
      assert forall f :: f in keys - {last} <==> f in front by {
        forall f ensures f in keys - {last} <==> f in front {
          if f in front {
            var i :| 0 <= i < |front| && front[i] == f;
            assert order[i] == f;
          }
          if f in order && f != last {
            var i :| 0 <= i < |order| && order[i] == f;
            assert i < |order| - 1;
            assert front[i] == f;
          }
        }
      }
      DistinctCard(front, keys - {last});
      assert last in keys;
      assert |keys - {last}| == |keys| - 1;
    } else {
      assert forall f :: f !in keys;
      assert keys == {};
    }
  }

  /** A frame on the call stack: the function entered, the metrics read on
      entry, and the inclusive cost of the calls it has made so far. */
  datatype Frame = Frame(funcIdx: int, start: MetricValues, children: Cost)

  /** The state of the walk between two events. The stack's top is its
      last frame. */
  datatype Replay = Replay(table: StatsTable, stack: seq<Frame>)

  /** Either the walk goes on, or it stopped with an error, leaving the
      table as far as it had been updated. */
  datatype Progress = Running(state: Replay) | Halted(table: StatsTable, error: ParseError)
  {
    function Table(): StatsTable
    {
      if Running? then state.table else table
    }
  }

  // ---------------------------------------------------------------------
  // One event
  // ---------------------------------------------------------------------

  const WallTimeKey: string := "wt"
  const MemoryKey: string := "mu"
  const CpuTimeKey: string := "ct"

  /** A metric reading, 0 when the event did not record it. */
  function Reading(m: MetricValues, key: string): real
  {
    if key in m then m[key] else 0.0
  }

  /** The cost between two readings: end minus start, per metric. */
  function Elapsed(start: MetricValues, end: MetricValues): Cost
  {
    Cost(Reading(end, WallTimeKey) - Reading(start, WallTimeKey),
         Reading(end, MemoryKey) - Reading(start, MemoryKey),
         Reading(end, CpuTimeKey) - Reading(start, CpuTimeKey))
  }

  /** The name of function f: entry f of the function table, or "Unknown"
      when there is no such entry. */
  function NameOf(names: seq<string>, f: int): string
  {
    if 0 <= f < |names| then names[f] else "Unknown"
  }

  function Fresh(names: seq<string>, f: int): FunctionStats
  {
    FunctionStats(NameOf(names, f), 0, Zero, Zero)
  }

  /** Gives f a zeroed entry at the end of the table unless it has one. */
  function Touch(names: seq<string>, t: StatsTable, f: int): (r: StatsTable)
    ensures f in r.entries
  {
    if f in t.entries then t else StatsTable(t.order + [f], t.entries[f := Fresh(names, f)])
  }

  /** Adds c to the children accumulator of the top frame, if any. */
  function Charge(stack: seq<Frame>, c: Cost): (r: seq<Frame>)
    ensures |r| == |stack|
    ensures forall i :: 0 <= i < |stack| - 1 ==> r[i] == stack[i]
    ensures stack != [] ==>
              var top := stack[|stack| - 1];
              r[|r| - 1] == Frame(top.funcIdx, top.start, top.children.Plus(c))
  {
    if stack == [] then []
    else
      var top := stack[|stack| - 1];
      stack[..|stack| - 1] + [top.(children := top.children.Plus(c))]
  }

  /** Counts one more call of f, creating its entry first if needed. */
  function Begin(names: seq<string>, t: StatsTable, f: int): StatsTable
  {
    var t1 := Touch(names, t, f);
    var s := t1.entries[f];
    StatsTable(t1.order, t1.entries[f := s.(callCount := s.callCount + 1)])
  }

  /** Adds an inclusive and an exclusive cost to the entry of f, creating
      it first if needed. */
  function Credit(names: seq<string>, t: StatsTable, f: int, inclusive: Cost, exclusive: Cost): StatsTable
  {
    var t1 := Touch(names, t, f);
    var s := t1.entries[f];
    StatsTable(t1.order, t1.entries[f := s.(inclusive := s.inclusive.Plus(inclusive),
                                             exclusive := s.exclusive.Plus(exclusive))])
  }

  /** One event: the entry of the event's function is created if missing;
      a start event pushes a frame and counts a call; an end event pops the
      top frame, which must exist and belong to the same function, charges
      the elapsed cost to the function's inclusive total and the elapsed
      cost less the frame's children to its exclusive total, and adds the
      elapsed cost to the children of the new top frame. */
  function Step(names: seq<string>, r: Replay, e: Event): Progress
  {
    var f := e.funcIdx;
    if e.isStart then
      Running(Replay(Begin(names, r.table, f), r.stack + [Frame(f, e.metrics, Zero)]))
    else if r.stack == [] then
      Halted(Touch(names, r.table, f), StackUnderflow(f))
    else
      var top := r.stack[|r.stack| - 1];
      if top.funcIdx != f then
        Halted(Touch(names, r.table, f), StackMismatch(top.funcIdx, f))
      else
        var spent := Elapsed(top.start, e.metrics);
        Running(Replay(Credit(names, r.table, f, spent, spent.Minus(top.children)),
                       Charge(r.stack[..|r.stack| - 1], spent)))
  }

  /** The walk over a sequence of events, one Step at a time; once halted
      it stays halted. */
  function Replayed(names: seq<string>, start: Replay, events: seq<Event>): Progress
  {
    if events == [] then Running(start)
    else
      match Replayed(names, start, events[..|events| - 1])
      case Halted(t, err) => Halted(t, err)
      case Running(r) => Step(names, r, events[|events| - 1])
  }

  /** The whole statistics pass: the walk from an empty stack, which must
      end with an empty stack. */
  function Run(names: seq<string>, table: StatsTable, events: seq<Event>): Progress
  {
    match Replayed(names, Replay(table, []), events)
    case Halted(t, err) => Halted(t, err)
    case Running(r) => if r.stack == [] then Running(r) else Halted(r.table, IncompleteProfile)
  }

  // ---------------------------------------------------------------------
  // Counting events
  // ---------------------------------------------------------------------

  /** Number of start events. */
  function Starts(events: seq<Event>): nat
  {
    if events == [] then 0
    else Starts(events[..|events| - 1]) + (if events[|events| - 1].isStart then 1 else 0)
  }

  /** Number of end events. */
  function Ends(events: seq<Event>): nat
  {
    if events == [] then 0
    else Ends(events[..|events| - 1]) + (if events[|events| - 1].isStart then 0 else 1)
  }

  /** Number of start events of function f. */
  function StartsOf(events: seq<Event>, f: int): nat
  {
    if events == [] then 0
    else
      var e := events[|events| - 1];
      StartsOf(events[..|events| - 1], f) + (if e.isStart && e.funcIdx == f then 1 else 0)
  }

  /** The function indices the events mention. */
  function Ids(events: seq<Event>): set<int>
  {
    if events == [] then {} else Ids(events[..|events| - 1]) + {events[|events| - 1].funcIdx}
  }

  /** The call count the table holds for f, 0 without an entry. */
  function CallCount(t: StatsTable, f: int): nat
  {
    if f in t.entries then t.entries[f].callCount else 0
  }

  /** Every entry is named after the function table. */
  ghost predicate NamedFrom(names: seq<string>, t: StatsTable)
  {
    forall f :: f in t.entries ==> t.entries[f].name == NameOf(names, f)
  }

  // ---------------------------------------------------------------------
  // Properties of one step
  // ---------------------------------------------------------------------

  /** A step keeps the table well formed and named, adds the event's
      function to its keys, and only ever appends to the key order. */
  lemma StepTable(names: seq<string>, r: Replay, e: Event)
    requires r.table.Valid()
    ensures var t := Step(names, r, e).Table();
            t.Valid() && (NamedFrom(names, r.table) ==> NamedFrom(names, t))
            && t.entries.Keys == r.table.entries.Keys + {e.funcIdx}
            && r.table.order <= t.order
  {
    var t := Touch(names, r.table, e.funcIdx);
    assert t.Valid() && (NamedFrom(names, r.table) ==> NamedFrom(names, t));
    assert t.entries.Keys == r.table.entries.Keys + {e.funcIdx};
  }

  /** A step that goes on counts one call of f exactly when it is a start
      event of f, and grows or shrinks the stack by one frame. */
  lemma StepCounts(names: seq<string>, r: Replay, e: Event)
    requires Step(names, r, e).Running?
    ensures var r' := Step(names, r, e).state;
            (forall g :: CallCount(r'.table, g)
                         == CallCount(r.table, g) + (if e.isStart && e.funcIdx == g then 1 else 0))
            && |r'.stack| == if e.isStart then |r.stack| + 1 else |r.stack| - 1
  {
    var t := Touch(names, r.table, e.funcIdx);
    assert forall g :: CallCount(t, g) == CallCount(r.table, g);
  }

  /** An end event on an empty stack stops the walk with an underflow. */
  lemma StepUnderflow(names: seq<string>, r: Replay, e: Event)
    requires !e.isStart && r.stack == []
    ensures Step(names, r, e) == Halted(Touch(names, r.table, e.funcIdx), StackUnderflow(e.funcIdx))
  {
  }

  /** An end event for another function than the top frame's stops the
      walk with a mismatch naming both. */
  lemma StepMismatch(names: seq<string>, r: Replay, e: Event)
    requires !e.isStart && r.stack != [] && r.stack[|r.stack| - 1].funcIdx != e.funcIdx
    ensures Step(names, r, e)
            == Halted(Touch(names, r.table, e.funcIdx),
                      StackMismatch(r.stack[|r.stack| - 1].funcIdx, e.funcIdx))
  {
  }

  /** The walk stops at an event exactly when it is an end event and the
      stack is empty or its top frame belongs to another function. */
  lemma StepHalts(names: seq<string>, r: Replay, e: Event)
    ensures Step(names, r, e).Halted?
            <==> !e.isStart && (r.stack == [] || r.stack[|r.stack| - 1].funcIdx != e.funcIdx)
  {
  }

  /** A matching end event charges the elapsed cost to the function's
      inclusive total, the elapsed cost minus the frame's children to its
      exclusive total, pops the frame, and adds the elapsed cost to the
      children of the frame below, leaving every other frame as it was;
      the function's name and call count, and every other function's
      entry, stay as they were. */
  lemma StepEnd(names: seq<string>, r: Replay, e: Event)
    requires !e.isStart && r.stack != [] && r.stack[|r.stack| - 1].funcIdx == e.funcIdx
    ensures var top := r.stack[|r.stack| - 1];
            var spent := Elapsed(top.start, e.metrics);
            var before := Touch(names, r.table, e.funcIdx).entries[e.funcIdx];
            var p := Step(names, r, e);
            p.Running?
            && p.state.table.entries[e.funcIdx].inclusive == before.inclusive.Plus(spent)
            && p.state.table.entries[e.funcIdx].exclusive
               == before.exclusive.Plus(spent.Minus(top.children))
            && |p.state.stack| == |r.stack| - 1
            && (forall i :: 0 <= i < |r.stack| - 2 ==> p.state.stack[i] == r.stack[i])
            && (|r.stack| >= 2 ==>
                  p.state.stack[|r.stack| - 2].children == r.stack[|r.stack| - 2].children.Plus(spent))
    ensures var before := Touch(names, r.table, e.funcIdx).entries[e.funcIdx];
            var t := Step(names, r, e).Table();
            t.entries[e.funcIdx].callCount == before.callCount
            && t.entries[e.funcIdx].name == before.name
            && forall g :: g != e.funcIdx && g in r.table.entries ==>
                 g in t.entries && t.entries[g] == r.table.entries[g]
  {
  }

  // ---------------------------------------------------------------------
  // Properties of the walk
  // ---------------------------------------------------------------------

  /** Going on with more events from where a walk stopped or paused. */
  function Continue(names: seq<string>, p: Progress, events: seq<Event>): Progress
  {
    match p
    case Halted(t, err) => Halted(t, err)
    case Running(r) => Replayed(names, r, events)
  }

  /** Walking a + b is walking a, then walking b from where that left off;
      an error in a is the error of the whole. */
  lemma {:induction false} ReplayedAppend(names: seq<string>, start: Replay, a: seq<Event>, b: seq<Event>)
    ensures Replayed(names, start, a + b) == Continue(names, Replayed(names, start, a), b)
  {
    if b == [] {
      assert a + b == a;
    } else {
      var front := b[..|b| - 1];
      ReplayedAppend(names, start, a, front);
      assert (a + b)[..|a + b| - 1] == a + front;
      assert (a + b)[|a + b| - 1] == b[|b| - 1];
    }
  }

  /** The walk keeps the table well formed and named, never reorders or
      drops a key, and, when it goes through, leaves exactly one entry for
      each function it had before or met in an event. */
  lemma {:induction false} ReplayedTable(names: seq<string>, start: Replay, events: seq<Event>)
    requires start.table.Valid()
    ensures var t := Replayed(names, start, events).Table();
            t.Valid() && (NamedFrom(names, start.table) ==> NamedFrom(names, t))
            && start.table.order <= t.order
    ensures Replayed(names, start, events).Running? ==>
              Replayed(names, start, events).state.table.entries.Keys
              == start.table.entries.Keys + Ids(events)
  {
    if events != [] {
      var front := events[..|events| - 1];
      ReplayedTable(names, start, front);
      match Replayed(names, start, front)
      case Halted(_, _) =>
      case Running(r) =>
        StepTable(names, r, events[|events| - 1]);
    }
  }

  /** When the walk goes through, the call count of every function has grown
      by its number of start events, and the stack by the number of start
      events less the number of end events. */
  lemma {:induction false} ReplayedCounts(names: seq<string>, start: Replay, events: seq<Event>)
    requires Replayed(names, start, events).Running?
    ensures var r := Replayed(names, start, events).state;
            (forall f :: CallCount(r.table, f) == CallCount(start.table, f) + StartsOf(events, f))
            && |r.stack| + Ends(events) == |start.stack| + Starts(events)
  {
    if events != [] {
      var front := events[..|events| - 1];
      var r := Replayed(names, start, front).state;
      ReplayedCounts(names, start, front);
      StepCounts(names, r, events[|events| - 1]);
    }
  }

  /** No prefix of a walk that goes through has more end events than the
      frames it started with plus its start events. */
  lemma {:induction false} ReplayedPrefix(names: seq<string>, start: Replay, events: seq<Event>, k: nat)
    requires k <= |events| && Replayed(names, start, events).Running?
    ensures Replayed(names, start, events[..k]).Running?
    ensures Ends(events[..k]) <= |start.stack| + Starts(events[..k])
  {
    assert events == events[..k] + events[k..];
    ReplayedAppend(names, start, events[..k], events[k..]);
    ReplayedCounts(names, start, events[..k]);
  }

  // ---------------------------------------------------------------------
  // Properties of the whole pass
  // ---------------------------------------------------------------------

  /** The pass keeps the table well formed and named and never reorders a
      key. When it succeeds, the stack is empty, there are as many end
      events as start events, every function met in an event has an entry,
      and each call count has grown by that function's start events. */
  lemma RunTable(names: seq<string>, t: StatsTable, events: seq<Event>)
    requires t.Valid()
    ensures var t' := Run(names, t, events).Table();
            t'.Valid() && (NamedFrom(names, t) ==> NamedFrom(names, t')) && t.order <= t'.order
    ensures Run(names, t, events).Running? ==>
              var r := Run(names, t, events).state;
              r.stack == []
              && Starts(events) == Ends(events)
              && r.table.entries.Keys == t.entries.Keys + Ids(events)
              && forall f :: CallCount(r.table, f) == CallCount(t, f) + StartsOf(events, f)
  {
    ReplayedTable(names, Replay(t, []), events);
    if Replayed(names, Replay(t, []), events).Running? {
      ReplayedCounts(names, Replay(t, []), events);
    }
  }

  /** A profile with more start events than end events, or the other way
      round, never goes through. */
  lemma RunUnbalanced(names: seq<string>, t: StatsTable, events: seq<Event>)
    requires Starts(events) != Ends(events)
    ensures Run(names, t, events).Halted?
  {
    if Replayed(names, Replay(t, []), events).Running? {
      ReplayedCounts(names, Replay(t, []), events);
    }
  }

  /** A walk that meets no error but has more start events than end events
      is rejected as incomplete, keeping the table it built. */
  lemma RunIncomplete(names: seq<string>, t: StatsTable, events: seq<Event>)
    requires Replayed(names, Replay(t, []), events).Running?
    requires Starts(events) > Ends(events)
    ensures Run(names, t, events)
            == Halted(Replayed(names, Replay(t, []), events).state.table, IncompleteProfile)
  {
    ReplayedCounts(names, Replay(t, []), events);
  }

  /** If some prefix of the events ends more calls than it starts, the pass
      fails. */
  lemma RunEndsTooEarly(names: seq<string>, t: StatsTable, events: seq<Event>, k: nat)
    requires k <= |events| && Ends(events[..k]) > Starts(events[..k])
    ensures Run(names, t, events).Halted?
  {
    if Replayed(names, Replay(t, []), events).Running? {
      ReplayedPrefix(names, Replay(t, []), events, k);
    }
  }

  /** An end event reached with an empty stack makes the whole pass fail
      with an underflow for that event's function, whatever follows. */
  lemma RunUnderflow(names: seq<string>, t: StatsTable, pre: seq<Event>, e: Event, post: seq<Event>)
    requires Replayed(names, Replay(t, []), pre).Running?
    requires Replayed(names, Replay(t, []), pre).state.stack == [] && !e.isStart
    ensures Run(names, t, pre + [e] + post)
            == Halted(Touch(names, Replayed(names, Replay(t, []), pre).state.table, e.funcIdx),
                      StackUnderflow(e.funcIdx))
  {
    ReplayedAppend(names, Replay(t, []), pre, [e]);
    ReplayedAppend(names, Replay(t, []), pre + [e], post);
  }

  /** An end event for another function than the one on top of the stack
      makes the whole pass fail with a mismatch, whatever follows. */
  lemma RunMismatch(names: seq<string>, t: StatsTable, pre: seq<Event>, e: Event, post: seq<Event>)
    requires Replayed(names, Replay(t, []), pre).Running?
    requires var stack := Replayed(names, Replay(t, []), pre).state.stack;
             !e.isStart && stack != [] && stack[|stack| - 1].funcIdx != e.funcIdx
    ensures var r := Replayed(names, Replay(t, []), pre).state;
            Run(names, t, pre + [e] + post)
            == Halted(Touch(names, r.table, e.funcIdx),
                      StackMismatch(r.stack[|r.stack| - 1].funcIdx, e.funcIdx))
  {
    ReplayedAppend(names, Replay(t, []), pre, [e]);
    ReplayedAppend(names, Replay(t, []), pre + [e], post);
  }
}
