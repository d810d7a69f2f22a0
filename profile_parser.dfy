/** The parser object: it holds the function names, the decoded events, the
    active metric keys and the per-function statistics, and updates them in
    place as a profile is read. A thrown exception is modelled as a returned
    error; whatever the object had updated before the throw stays updated. */
module ProfileParsing {
  import opened PhpBuiltins
  import opened ProfileData
  import opened StatsEngine
  import opened Views

  class ProfileParser {
    var functions: seq<string>
    var events: seq<Event>
    var metrics: seq<string>
    var functionStats: StatsTable

    /** The statistics table lists each key once, in insertion order. */
    ghost predicate Valid()
      reads this
    {
      functionStats.Valid()
    }

    /** The active metric keys are those whose enabled flag is truthy; the
        parser starts with no names, no events and no statistics. */
    constructor(enabled: seq<(string, Flag)>)
      ensures Valid()
      ensures metrics == ActiveMetrics(enabled)
      ensures functions == [] && events == [] && functionStats == EmptyTable
    {
      metrics := ActiveMetrics(enabled);
      functions := [];
      events := [];
      functionStats := EmptyTable;
    }

    /** Reads the lines of a profile (None when the file cannot be opened):
        headers switch the section, empty() lines are skipped, lines of the
        functions section are appended to the names and lines of the events
        section are decoded and appended to the events; then the statistics
        pass runs over all events held, onto the table already held. */
    method Parse(file: Option<seq<string>>) returns (error: Option<ParseError>)
      requires Valid()
      modifies this
      ensures Valid()
      ensures file.None? ==> error == Some(CannotOpen) && unchanged(this)
      ensures file.Some? ==>
                var read := SplitSections(file.value);
                metrics == old(metrics)
                && functions == old(functions) + read.names
                && events == old(events) + DecodeAll(metrics, read.eventLines)
                && functionStats == Run(functions, old(functionStats), events).Table()
                && (error == None <==> Run(functions, old(functionStats), events).Running?)
                && (error.Some? ==> Run(functions, old(functionStats), events).Halted?
                                    && error.value == Run(functions, old(functionStats), events).error)
    {
      if file.None? {
        return Some(CannotOpen);
      }
      ReadLines(file.value);
      error := CalculateStats();
    }

    /** The reading loop of parse, over the lines of an opened file. */
    method ReadLines(lines: seq<string>)
      modifies this
      ensures var read := SplitSections(lines);
              metrics == old(metrics) && functionStats == old(functionStats)
              && functions == old(functions) + read.names
              && events == old(events) + DecodeAll(metrics, read.eventLines)
    {
      ghost var all := SplitSections(lines);
      var section := NoSection;
      var i := 0;
      while i < |lines|
        invariant 0 <= i <= |lines|
        invariant metrics == old(metrics) && functionStats == old(functionStats)
        invariant var rest := Read(section, ClassifyAll(lines[i..]));
                  old(functions) + all.names == functions + rest.names
                  && old(events) + DecodeAll(metrics, all.eventLines)
                     == events + DecodeAll(metrics, rest.eventLines)
      {
        ReadOne(section, lines, i);
        ghost var one := Read(section, [Classify(lines[i])]);
        ghost var tail := Read(SectionAfter(section, [Classify(lines[i])]), ClassifyAll(lines[i + 1..]));
        ghost var names0, events0 := functions, events;
        section := ReadLine(section, lines[i]);
        Associative(names0, one.names, tail.names);
        DecodeAllAppend(metrics, one.eventLines, tail.eventLines);
        Associative(events0, DecodeAll(metrics, one.eventLines), DecodeAll(metrics, tail.eventLines));
        i := i + 1;
      }
      assert lines[|lines|..] == [];
    }

    /** One pass of the reading loop: the trimmed line switches the section
        if it is a header, is skipped if it is empty(), and is otherwise
        kept as a function name or decoded as an event according to the
        section in force; before the first header it is dropped. */
    method ReadLine(section: Section, raw: string) returns (next: Section)
      modifies this
      ensures next == SectionAfter(section, [Classify(raw)])
      ensures metrics == old(metrics) && functionStats == old(functionStats)
      ensures var kept := Read(section, [Classify(raw)]);
              functions == old(functions) + kept.names
              && events == old(events) + DecodeAll(metrics, kept.eventLines)
    {
      ghost var kind := Classify(raw);
      ReadSingle(section, kind);
      var line := Trim(raw);
      next := section;
      if line == EventsHeader {
        assert kind == SwitchTo(EventsSection);
        next := EventsSection;
        return;
      }
      if line == FunctionsHeader {
        assert kind == SwitchTo(FunctionsSection);
        next := FunctionsSection;
        return;
      }
      if IsEmptyString(line) {
        assert kind == Skipped;
        return;
      }
      assert kind == Content(line);
      if section == EventsSection {
        ParseEvent(line);
        assert DecodeAll(metrics, [line]) == [DecodeEvent(metrics, line)];
      } else if section == FunctionsSection {
        functions := functions + [line];
      }
    }

    /** parseEvent: the decoded line is appended to the events. */
    method ParseEvent(line: string)
      modifies this
      ensures events == old(events) + [DecodeEvent(metrics, line)]
      ensures functions == old(functions) && metrics == old(metrics)
      ensures functionStats == old(functionStats)
    {
      var parts := Explode(line);
      var funcIdx := IntCast(parts[0]);
      var isStart := |parts| >= 2 && parts[1] == "1";
      var m := MetricsOf(metrics, parts);
      events := events + [Event(funcIdx, isStart, m)];
    }

    /** calculateStats: one pass over all events held, updating the table
        in place; it stops at the first underflow or mismatch, and reports
        an incomplete profile when frames are left on the stack. */
    method CalculateStats() returns (error: Option<ParseError>)
      requires Valid()
      modifies this
      ensures Valid()
      ensures functions == old(functions) && events == old(events) && metrics == old(metrics)
      ensures functionStats == Run(functions, old(functionStats), events).Table()
      ensures error == None <==> Run(functions, old(functionStats), events).Running?
      ensures error.Some? ==> Run(functions, old(functionStats), events).Halted?
                              && error.value == Run(functions, old(functionStats), events).error
    {
      ghost var start := Replay(functionStats, []);
      var callStack: seq<Frame> := [];
      var i := 0;
      while i < |events|
        invariant 0 <= i <= |events|
        invariant functions == old(functions) && events == old(events) && metrics == old(metrics)
        invariant Replayed(functions, start, events[..i]) == Running(Replay(functionStats, callStack))
        invariant functionStats.Valid()
      {
        ReplayedNext(functions, start, events, i);
        var next, failure := ApplyEvent(events[i], callStack);
        if failure.Some? {
          HaltsAt(functions, start, events, i);
          return failure;
        }
        callStack := next;
        i := i + 1;
      }
      assert events[..|events|] == events;
      if callStack != [] {
        return Some(IncompleteProfile);
      }
      return None;
    }

    /** The body of the calculateStats loop for one event: the entry of its
        function is created if missing; a start event pushes a frame and
        counts a call; an end event pops a frame, throwing on an empty stack
        or a frame of another function, charges the function and passes the
        elapsed cost on to the frame below. */
    method ApplyEvent(e: Event, callStack: seq<Frame>) returns (next: seq<Frame>, error: Option<ParseError>)
      requires functionStats.Valid()
      modifies this
      ensures functionStats.Valid()
      ensures functions == old(functions) && events == old(events) && metrics == old(metrics)
      ensures error.None? ==>
                Step(functions, Replay(old(functionStats), callStack), e)
                == Running(Replay(functionStats, next))
      ensures error.Some? ==>
                Step(functions, Replay(old(functionStats), callStack), e)
                == Halted(functionStats, error.value)
    {
      ghost var before := Replay(functionStats, callStack);
      StepTable(functions, before, e);
      var f := e.funcIdx;
      var table := functionStats;
      if f !in table.entries {
        table := StatsTable(table.order + [f], table.entries[f := FunctionStats(NameOf(functions, f), 0, Zero, Zero)]);
      }
      assert table == Touch(functions, before.table, f);
      next := callStack;
      error := None;
      if e.isStart {
        StartStep(functions, before, e, table);
        next := next + [Frame(f, e.metrics, Zero)];
        var s := table.entries[f];
        functionStats := StatsTable(table.order, table.entries[f := s.(callCount := s.callCount + 1)]);
        return;
      }
      next, error := CloseFrame(e, table, callStack);
    }

    /** The end-event half of the loop body of calculateStats, given the
        table with the event's function entry in place: pop the top frame,
        or stop on an underflow or a mismatch; otherwise charge the elapsed
        cost to the function and to the frame below. */
    method CloseFrame(e: Event, table: StatsTable, callStack: seq<Frame>)
      returns (next: seq<Frame>, error: Option<ParseError>)
      requires !e.isStart && table == Touch(functions, functionStats, e.funcIdx)
      modifies this
      ensures functions == old(functions) && events == old(events) && metrics == old(metrics)
      ensures error.None? ==>
                Step(functions, Replay(old(functionStats), callStack), e)
                == Running(Replay(functionStats, next))
      ensures error.Some? ==>
                Step(functions, Replay(old(functionStats), callStack), e)
                == Halted(functionStats, error.value)
    {
      ghost var before := Replay(functionStats, callStack);
      var f := e.funcIdx;
      next := callStack;
      error := None;
      if next == [] {
        functionStats := table;
        return next, Some(StackUnderflow(f));
      }
      var frame := next[|next| - 1];
      next := next[..|next| - 1];
      if frame.funcIdx != f {
        functionStats := table;
        return next, Some(StackMismatch(frame.funcIdx, f));
      }
      var wallTime := Reading(e.metrics, WallTimeKey) - Reading(frame.start, WallTimeKey);
      var memory := Reading(e.metrics, MemoryKey) - Reading(frame.start, MemoryKey);
      var cpuTime := Reading(e.metrics, CpuTimeKey) - Reading(frame.start, CpuTimeKey);
      var spent := Cost(wallTime, memory, cpuTime);
      EndStep(functions, before, e, table, spent);
      var s := table.entries[f];
      functionStats := StatsTable(table.order,
                                  table.entries[f := s.(inclusive := s.inclusive.Plus(spent),
                                                        exclusive := s.exclusive.Plus(spent.Minus(frame.children)))]);
      ghost var popped := next;
      if next != [] {
        var parent := next[|next| - 1];
        next := next[..|next| - 1] + [Frame(parent.funcIdx, parent.start, parent.children.Plus(spent))];
      }
      assert next == if popped == [] then []
                     else popped[..|popped| - 1]
                          + [Frame(popped[|popped| - 1].funcIdx, popped[|popped| - 1].start,
                                   popped[|popped| - 1].children.Plus(spent))];
    }

    // The four top-N lists, over the table held; without a limit they keep
    // the first DefaultLimit entries.

    function SlowestFunctions(limit: int := DefaultLimit): seq<FunctionStats>
      reads this
      requires Valid()
    {
      Views.SlowestFunctions(functionStats, limit)
    }

    function MostCalledFunctions(limit: int := DefaultLimit): seq<FunctionStats>
      reads this
      requires Valid()
    {
      Views.MostCalledFunctions(functionStats, limit)
    }

    function MemoryHogs(limit: int := DefaultLimit): seq<FunctionStats>
      reads this
      requires Valid()
    {
      Views.MemoryHogs(functionStats, limit)
    }

    function CpuIntensiveFunctions(limit: int := DefaultLimit): seq<FunctionStats>
      reads this
      requires Valid()
    {
      Views.CpuIntensiveFunctions(functionStats, limit)
    }

    /** Called without a limit, each top-N list keeps the first 50 entries,
        or the whole table when it is smaller. */
    lemma DefaultTopN()
      requires Valid()
      ensures var n := if 50 < |functionStats.entries| then 50 else |functionStats.entries|;
              |SlowestFunctions()| == n && |MostCalledFunctions()| == n
              && |MemoryHogs()| == n && |CpuIntensiveFunctions()| == n
    {
    }

    /** getAllFunctionStats: the table itself, keyed by function index in
        first-seen order. */
    function AllFunctionStats(): (r: StatsTable)
      reads this
      requires Valid()
      ensures r.Valid()
    {
      functionStats
    }

    /** getSummaryStats: one pass over the table in its order, summing the
        call counts and keeping the largest inclusive wall time and memory. */
    method GetSummaryStats() returns (s: Summary)
      requires Valid()
      ensures s == SummaryOf(functionStats)
      ensures s.totalFunctions == |functionStats.entries|
      ensures forall f :: f in functionStats.entries ==>
                s.totalTimeUs >= functionStats.entries[f].inclusive.time
                && s.peakMemoryBytes >= functionStats.entries[f].inclusive.memory
    {
      var table := functionStats;
      assert table.Valid();
      s := Summarize(table);
    }
  }

  /** The loop of parseEvent over the value tokens: the value at position
      i (from 2) is stored under the (i-2)-th metric key while there is one. */
  method MetricsOf(keys: seq<string>, parts: seq<string>) returns (m: MetricValues)
    ensures m == AssignMetrics(keys, CastAll(ValueTokens(parts)),
                               Min(|keys|, |ValueTokens(parts)|))
  {
    ghost var tokens := ValueTokens(parts);
    ghost var values := CastAll(tokens);
    assert |values| == |tokens| == if |parts| >= 2 then |parts| - 2 else 0;
    ghost var n := 0;
    m := map[];
    var i := 2;
    while i < |parts|
      invariant i == 2 || 2 < i <= |parts|
      invariant n <= |values| && n == (if i - 2 < |keys| then i - 2 else |keys|)
      invariant m == AssignMetrics(keys, values, n)
    {
      var metricIdx := i - 2;
      if metricIdx < |keys| {
        AssignNext(keys, values, metricIdx);
        ValueAt(parts, i);
        m := m[keys[metricIdx] := FloatCast(parts[i])];
        n := n + 1;
      }
      i := i + 1;
    }
    assert n == Min(|keys|, |tokens|);
  }

  /** The loop of getSummaryStats over a table in its order. */
  method Summarize(table: StatsTable) returns (s: Summary)
    requires table.Valid()
    ensures s == SummaryOf(table)
    ensures s.totalFunctions == |table.entries|
    ensures forall f :: f in table.entries ==>
              s.totalTimeUs >= table.entries[f].inclusive.time
              && s.peakMemoryBytes >= table.entries[f].inclusive.memory
  {
    ghost var vs := Values(table);
    var totalCalls := 0;
    var totalFunctions := |table.entries|;
    var maxTime := 0.0;
    var maxMemory := 0.0;
    var i := 0;
    while i < |table.order|
      invariant 0 <= i <= |table.order|
      invariant totalCalls == TotalCalls(vs[..i])
      invariant maxTime == Peak(vs[..i], false) && maxMemory == Peak(vs[..i], true)
    {
      var f := table.order[i];
      assert f in table.order;
      var stats := table.entries[f];
      assert vs[i] == stats;
      SummaryNext(vs, i);
      totalCalls := totalCalls + stats.callCount;
      maxTime := Max(maxTime, stats.inclusive.time);
      maxMemory := Max(maxMemory, stats.inclusive.memory);
      i := i + 1;
    }
    assert vs[..i] == vs;
    s := Summary(totalFunctions, totalCalls, maxTime, maxTime / MicrosPerMilli,
                 maxMemory, maxMemory / BytesPerMebibyte);
    SummaryBounds(table);
  }

  /** One more entry adds its calls to the running total and is folded
      into both running maxima. */
  lemma SummaryNext(vs: seq<FunctionStats>, i: nat)
    requires i < |vs|
    ensures TotalCalls(vs[..i + 1]) == TotalCalls(vs[..i]) + vs[i].callCount
    ensures Peak(vs[..i + 1], false) == Max(Peak(vs[..i], false), vs[i].inclusive.time)
    ensures Peak(vs[..i + 1], true) == Max(Peak(vs[..i], true), vs[i].inclusive.memory)
  {
    assert vs[..i + 1][..i] == vs[..i] && vs[..i + 1][i] == vs[i];
  }

  /** What the reading loop keeps from line i on is what line i gives,
      followed by what the remaining lines give in the section in force
      after line i. */
  lemma ReadOne(section: Section, lines: seq<string>, i: nat)
    requires i < |lines|
    ensures var first := [Classify(lines[i])];
            var one := Read(section, first);
            var tail := Read(SectionAfter(section, first), ClassifyAll(lines[i + 1..]));
            Read(section, ClassifyAll(lines[i..]))
            == Sections(one.names + tail.names, one.eventLines + tail.eventLines)
  {
    assert lines[i..][0] == lines[i];
    assert lines[i..][1..] == lines[i + 1..];
    assert ClassifyAll(lines[i..]) == [Classify(lines[i])] + ClassifyAll(lines[i + 1..]);
    ReadAppend(section, [Classify(lines[i])], ClassifyAll(lines[i + 1..]));
  }

  /** What a single classified line gives, and the section after it. */
  lemma ReadSingle(section: Section, kind: LineKind)
    ensures SectionAfter(section, [kind]) == if kind.SwitchTo? then kind.section else section
    ensures Read(section, [kind])
            == match kind
               case Content(line) =>
                 (match section
                  case FunctionsSection => Sections([line], [])
                  case EventsSection => Sections([], [line])
                  case NoSection => Sections([], []))
               case _ => Sections([], [])
  {
    assert [kind][0] == kind && [kind][1..] == [];
  }

  /** One more value token, stored under the next key. */
  lemma AssignNext(keys: seq<string>, values: seq<real>, n: nat)
    requires n < |values| && n < |keys|
    ensures AssignMetrics(keys, values, n + 1) == AssignMetrics(keys, values, n)[keys[n] := values[n]]
  {
  }

  /** The value token at position i of an event line, cast. */
  lemma ValueAt(parts: seq<string>, i: nat)
    requires 2 <= i < |parts|
    ensures CastAll(ValueTokens(parts))[i - 2] == FloatCast(parts[i])
  {
    CastAt(parts[2..], i - 2);
  }

  /** One more event of the walk is one more step. */
  lemma ReplayedNext(names: seq<string>, start: Replay, events: seq<Event>, i: nat)
    requires i < |events| && Replayed(names, start, events[..i]).Running?
    ensures Replayed(names, start, events[..i + 1])
            == Step(names, Replayed(names, start, events[..i]).state, events[i])
  {
    assert events[..i + 1][..i] == events[..i];
  }

  /** A walk that halts at event i halts the whole pass with the same table
      and error. */
  lemma HaltsAt(names: seq<string>, start: Replay, events: seq<Event>, i: nat)
    requires i < |events| && Replayed(names, start, events[..i]).Running?
    requires Step(names, Replayed(names, start, events[..i]).state, events[i]).Halted?
    ensures Replayed(names, start, events) == Step(names, Replayed(names, start, events[..i]).state, events[i])
  {
    ReplayedNext(names, start, events, i);
    ReplayedAppend(names, start, events[..i + 1], events[i + 1..]);
    assert events[..i + 1] + events[i + 1..] == events;
  }

  /** A start event: a frame is pushed and the call counted. */
  lemma StartStep(names: seq<string>, r: Replay, e: Event, t1: StatsTable)
    requires e.isStart && t1 == Touch(names, r.table, e.funcIdx)
    ensures var f := e.funcIdx;
            var s := t1.entries[f];
            Step(names, r, e)
            == Running(Replay(StatsTable(t1.order, t1.entries[f := s.(callCount := s.callCount + 1)]),
                              r.stack + [Frame(f, e.metrics, Zero)]))
  {
  }

  /** A matching end event: the top frame is popped, its function charged,
      and the frame below charged with the elapsed cost. */
  lemma EndStep(names: seq<string>, r: Replay, e: Event, t1: StatsTable, spent: Cost)
    requires !e.isStart && r.stack != [] && r.stack[|r.stack| - 1].funcIdx == e.funcIdx
    requires t1 == Touch(names, r.table, e.funcIdx)
    requires var top := r.stack[|r.stack| - 1];
             spent == Cost(Reading(e.metrics, WallTimeKey) - Reading(top.start, WallTimeKey),
                           Reading(e.metrics, MemoryKey) - Reading(top.start, MemoryKey),
                           Reading(e.metrics, CpuTimeKey) - Reading(top.start, CpuTimeKey))
    ensures var f := e.funcIdx;
            var s := t1.entries[f];
            var top := r.stack[|r.stack| - 1];
            var popped := r.stack[..|r.stack| - 1];
            Step(names, r, e)
            == Running(Replay(StatsTable(t1.order,
                                         t1.entries[f := s.(inclusive := s.inclusive.Plus(spent),
                                                            exclusive := s.exclusive.Plus(spent.Minus(top.children)))]),
                              if popped == [] then []
                              else popped[..|popped| - 1]
                                   + [Frame(popped[|popped| - 1].funcIdx, popped[|popped| - 1].start,
                                            popped[|popped| - 1].children.Plus(spent))]))
  {
    assert spent == Elapsed(r.stack[|r.stack| - 1].start, e.metrics);
  }

}
