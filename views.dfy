/** The read-only views over the function table: the four top-N lists
    (PHP's usort, which is stable, on a copy of the table followed by
    array_slice from offset 0) and the summary. */
module Views {
  import opened ProfileData
  import opened StatsEngine

  // ---------------------------------------------------------------------
  // Sorting keys
  // ---------------------------------------------------------------------

  /** The column a top-N list is sorted by. */
  datatype Measure = ByExclusiveTime | ByCallCount | ByInclusiveMemory | ByExclusiveCpu

  function Key(m: Measure, s: FunctionStats): real
  {
    match m
    case ByExclusiveTime => s.exclusive.time
    case ByCallCount => s.callCount as real
    case ByInclusiveMemory => s.inclusive.memory
    case ByExclusiveCpu => s.exclusive.cpu
  }

  /** Non-increasing in the key. */
  predicate Descending(m: Measure, s: seq<FunctionStats>)
  {
    forall i, j :: 0 <= i < j < |s| ==> Key(m, s[i]) >= Key(m, s[j])
  }

  // ---------------------------------------------------------------------
  // Stable sort, largest key first
  // ---------------------------------------------------------------------

  /** Puts x in front of the first element with a smaller key, so that it
      comes after every element with the same key. */
  function Insert(m: Measure, x: FunctionStats, s: seq<FunctionStats>): (r: seq<FunctionStats>)
    ensures |r| == |s| + 1
    decreases |s|
  {
    if s == [] then [x]
    else if Key(m, s[0]) < Key(m, x) then [x] + s
    else [s[0]] + Insert(m, x, s[1..])
  }

  /** usort with the comparator `$b[key] <=> $a[key]`: each element in turn
      is inserted into the sorted list of the elements before it. */
  function SortDescending(m: Measure, s: seq<FunctionStats>): (r: seq<FunctionStats>)
    ensures |r| == |s|
    decreases |s|
  {
    if s == [] then []
    else Insert(m, s[|s| - 1], SortDescending(m, s[..|s| - 1]))
  }

  lemma {:induction false} InsertPermutes(m: Measure, x: FunctionStats, s: seq<FunctionStats>)
    ensures multiset(Insert(m, x, s)) == multiset(s) + multiset{x}
  {
    if s != [] && Key(m, s[0]) >= Key(m, x) {
      InsertPermutes(m, x, s[1..]);
      assert s == [s[0]] + s[1..];
    }
  }

  lemma {:induction false} InsertSorted(m: Measure, x: FunctionStats, s: seq<FunctionStats>)
    requires Descending(m, s)
    ensures Descending(m, Insert(m, x, s))
    decreases |s|
  {
    if s != [] && Key(m, s[0]) >= Key(m, x) {
      InsertSorted(m, x, s[1..]);
      InsertBelowHead(m, x, s);
    }
  }

  /** Inserting behind the head keeps the head in front of everything. */
  lemma InsertBelowHead(m: Measure, x: FunctionStats, s: seq<FunctionStats>)
    requires Descending(m, s) && s != [] && Key(m, s[0]) >= Key(m, x)
    requires Descending(m, Insert(m, x, s[1..]))
    ensures Descending(m, Insert(m, x, s))
  {
    var rest := Insert(m, x, s[1..]);
    assert Insert(m, x, s) == [s[0]] + rest;
    InsertBounded(m, x, s[1..], Key(m, s[0]));
    var r := [s[0]] + rest;
    forall i, j | 0 <= i < j < |r| ensures Key(m, r[i]) >= Key(m, r[j]) {
      assert r[j] == rest[j - 1];
      if i > 0 {
        assert r[i] == rest[i - 1];
      }
    }
  }

  /** A bound on every key survives an insertion that respects it. */
  lemma {:induction false} InsertBounded(m: Measure, x: FunctionStats, s: seq<FunctionStats>, b: real)
    requires Key(m, x) <= b && forall j :: 0 <= j < |s| ==> Key(m, s[j]) <= b
    ensures forall j :: 0 <= j < |Insert(m, x, s)| ==> Key(m, Insert(m, x, s)[j]) <= b
    decreases |s|
  {
    if s != [] && Key(m, s[0]) >= Key(m, x) {
      InsertBounded(m, x, s[1..], b);
      var rest := Insert(m, x, s[1..]);
      assert Insert(m, x, s) == [s[0]] + rest;
      forall j | 0 < j < |Insert(m, x, s)| ensures Key(m, Insert(m, x, s)[j]) <= b {
        assert Insert(m, x, s)[j] == rest[j - 1];
      }
    }
  }

  /** The sorted list is a permutation of the input. */
  lemma {:induction false} SortPermutes(m: Measure, s: seq<FunctionStats>)
    ensures multiset(SortDescending(m, s)) == multiset(s)
  {
    if s != [] {
      var front := s[..|s| - 1];
      SortPermutes(m, front);
      InsertPermutes(m, s[|s| - 1], SortDescending(m, front));
      assert s == front + [s[|s| - 1]];
    }
  }

  /** The sorted list is in non-increasing order of the key. */
  lemma {:induction false} SortSorted(m: Measure, s: seq<FunctionStats>)
    ensures Descending(m, SortDescending(m, s))
  {
    if s != [] {
      var front := s[..|s| - 1];
      SortSorted(m, front);
      InsertSorted(m, s[|s| - 1], SortDescending(m, front));
    }
  }

  /** The elements whose key is v, in order. */
  function WithKey(m: Measure, s: seq<FunctionStats>, v: real): seq<FunctionStats>
    decreases |s|
  {
    if s == [] then []
    else (if Key(m, s[0]) == v then [s[0]] else []) + WithKey(m, s[1..], v)
  }

  lemma {:induction false} WithKeyAppend(m: Measure, a: seq<FunctionStats>, b: seq<FunctionStats>, v: real)
    ensures WithKey(m, a + b, v) == WithKey(m, a, v) + WithKey(m, b, v)
    decreases |a|
  {
    if a == [] {
      assert a + b == b;
    } else {
      var x, rest := a[0], a[1..];
      var head := if Key(m, x) == v then [x] else [];
      WithKeyAppend(m, rest, b, v);
      assert a + b == [x] + (rest + b) && a == [x] + rest;
      WithKeyCons(m, x, rest + b, v);
      WithKeyCons(m, x, rest, v);
      Associative(head, WithKey(m, rest, v), WithKey(m, b, v));
    }
  }

  lemma {:induction false} WithKeyNone(m: Measure, s: seq<FunctionStats>, v: real)
    requires forall i :: 0 <= i < |s| ==> Key(m, s[i]) < v
    ensures WithKey(m, s, v) == []
    decreases |s|
  {
    if s != [] {
      WithKeyNone(m, s[1..], v);
    }
  }

  lemma WithKeyCons(m: Measure, y: FunctionStats, s: seq<FunctionStats>, v: real)
    ensures WithKey(m, [y] + s, v) == (if Key(m, y) == v then [y] else []) + WithKey(m, s, v)
  {
    assert ([y] + s)[1..] == s;
  }

  lemma ConsStable(m: Measure, y: FunctionStats, a: seq<FunctionStats>, b: seq<FunctionStats>,
                    v: real, tail: seq<FunctionStats>)
    requires WithKey(m, a, v) == WithKey(m, b, v) + tail
    ensures WithKey(m, [y] + a, v) == WithKey(m, [y] + b, v) + tail
  {
    var head := if Key(m, y) == v then [y] else [];
    WithKeyCons(m, y, a, v);
    WithKeyCons(m, y, b, v);
    assert head + (WithKey(m, b, v) + tail) == (head + WithKey(m, b, v)) + tail;
  }

  lemma {:induction false} InsertStable(m: Measure, x: FunctionStats, s: seq<FunctionStats>, v: real)
    requires Descending(m, s)
    ensures WithKey(m, Insert(m, x, s), v) == WithKey(m, s, v) + (if Key(m, x) == v then [x] else [])
    decreases |s|
  {
    if s == [] {
      WithKeyCons(m, x, [], v);
    } else if Key(m, s[0]) < Key(m, x) {
      InsertFront(m, x, s, v);
    } else {
      InsertStable(m, x, s[1..], v);
      InsertBehind(m, x, s, v);
    }
  }

  /** x goes behind s[0], and the rest follows from inserting into s[1..]. */
  lemma InsertBehind(m: Measure, x: FunctionStats, s: seq<FunctionStats>, v: real)
    requires s != [] && Key(m, s[0]) >= Key(m, x)
    requires WithKey(m, Insert(m, x, s[1..]), v) == WithKey(m, s[1..], v) + (if Key(m, x) == v then [x] else [])
    ensures WithKey(m, Insert(m, x, s), v) == WithKey(m, s, v) + (if Key(m, x) == v then [x] else [])
  {
    var rest := Insert(m, x, s[1..]);
    assert Insert(m, x, s) == [s[0]] + rest;
    ConsStable(m, s[0], rest, s[1..], v, if Key(m, x) == v then [x] else []);
    assert [s[0]] + s[1..] == s;
  }

  /** x goes in front of a list whose keys are all smaller than its own. */
  lemma InsertFront(m: Measure, x: FunctionStats, s: seq<FunctionStats>, v: real)
    requires Descending(m, s) && s != [] && Key(m, s[0]) < Key(m, x)
    ensures WithKey(m, Insert(m, x, s), v) == WithKey(m, s, v) + (if Key(m, x) == v then [x] else [])
  {
    assert Insert(m, x, s) == [x] + s;
    WithKeyCons(m, x, s, v);
    if Key(m, x) == v {
      WithKeyNone(m, s, v);
    }
  }

  /** Sorting is stable: the elements with any one key keep their order. */
  lemma {:induction false} SortStable(m: Measure, s: seq<FunctionStats>, v: real)
    ensures WithKey(m, SortDescending(m, s), v) == WithKey(m, s, v)
    decreases |s|
  {
    if s != [] {
      var front := s[..|s| - 1];
      var last := s[|s| - 1];
      SortStable(m, front, v);
      SortSorted(m, front);
      InsertStable(m, last, SortDescending(m, front), v);
      WithKeyAppend(m, front, [last], v);
      assert s == front + [last];
      assert [last][1..] == [];
    }
  }

  // ---------------------------------------------------------------------
  // array_slice and the top-N lists
  // ---------------------------------------------------------------------

  /** The length array_slice($a, 0, $limit) keeps of an n-element list: at
      most limit elements for a non-negative limit, and all but the last
      -limit elements for a negative one. */
  function SliceLength(n: nat, limit: int): nat
  {
    if limit >= 0 then (if limit < n then limit else n)
    else if n + limit > 0 then n + limit else 0
  }

  function Slice(s: seq<FunctionStats>, limit: int): (r: seq<FunctionStats>)
    ensures |r| == SliceLength(|s|, limit) && r == s[..|r|]
    ensures r + s[|r|..] == s
    ensures limit >= 0 ==> |r| == (if limit < |s| then limit else |s|)
    ensures limit < 0 ==> |s| - |r| == (if -limit < |s| then -limit else |s|)
  {
    s[..SliceLength(|s|, limit)]
  }

  /** The number of entries a top-N list keeps when no limit is given. */
  const DefaultLimit: int := 50

  /** The first entries of the table by a measure, largest first. */
  function TopN(m: Measure, t: StatsTable, limit: int): (r: seq<FunctionStats>)
    requires t.Valid()
    ensures |r| == SliceLength(|t.entries|, limit)
    ensures Descending(m, r)
    ensures multiset(r) <= multiset(Values(t))
    ensures forall x, y :: x in multiset(Values(t)) - multiset(r) && y in r ==> Key(m, x) <= Key(m, y)
  {
    var sorted := SortDescending(m, Values(t));
    SortPermutes(m, Values(t));
    SortSorted(m, Values(t));
    var r := Slice(sorted, limit);
    TopFacts(m, sorted, |r|);
    r
  }

  /** Entries with equal keys appear in a top-N list in their table order. */
  lemma TopNStable(m: Measure, t: StatsTable, limit: int)
    requires t.Valid()
    ensures forall v :: WithKey(m, TopN(m, t, limit), v) <= WithKey(m, Values(t), v)
  {
    TopStable(m, Values(t), SliceLength(|t.entries|, limit));
  }

  /** Entries with equal keys keep their table order in any prefix of the
      sorted list. */
  lemma TopStable(m: Measure, s: seq<FunctionStats>, k: nat)
    requires k <= |s|
    ensures forall v :: WithKey(m, SortDescending(m, s)[..k], v) <= WithKey(m, s, v)
  {
    SortPermutes(m, s);
    var sorted := SortDescending(m, s);
    forall v
      ensures WithKey(m, sorted[..k], v) <= WithKey(m, s, v)
    {
      SortStable(m, s, v);
      WithKeyAppend(m, sorted[..k], sorted[k..], v);
      assert sorted == sorted[..k] + sorted[k..];
    }
  }

  /** A prefix of a sorted list is sorted, lies within the list, and no
      element left out has a larger key than one kept. */
  lemma TopFacts(m: Measure, sorted: seq<FunctionStats>, k: nat)
    requires Descending(m, sorted) && k <= |sorted|
    ensures Descending(m, sorted[..k])
    ensures multiset(sorted[..k]) <= multiset(sorted)
    ensures forall x, y :: x in multiset(sorted) - multiset(sorted[..k]) && y in sorted[..k]
              ==> Key(m, x) <= Key(m, y)
  {
    SplitMultiset(sorted, k);
    LeftOutBelow(m, sorted, k);
    assert Descending(m, sorted[..k]) by {
      forall i, j | 0 <= i < j < k ensures Key(m, sorted[..k][i]) >= Key(m, sorted[..k][j]) {
        assert sorted[..k][i] == sorted[i] && sorted[..k][j] == sorted[j];
      }
    }
  }

  /** Cutting a list at k splits its multiset in two. */
  lemma SplitMultiset(s: seq<FunctionStats>, k: nat)
    requires k <= |s|
    ensures multiset(s[..k]) <= multiset(s)
    ensures multiset(s) - multiset(s[..k]) == multiset(s[k..])
  {
    assert s == s[..k] + s[k..];
  }

  /** Every element after position k has a key no larger than any before. */
  lemma LeftOutBelow(m: Measure, sorted: seq<FunctionStats>, k: nat)
    requires Descending(m, sorted) && k <= |sorted|
    ensures forall x, y :: x in multiset(sorted[k..]) && y in sorted[..k] ==> Key(m, x) <= Key(m, y)
  {
    forall x, y | x in multiset(sorted[k..]) && y in sorted[..k]
      ensures Key(m, x) <= Key(m, y)
    {
      var i :| 0 <= i < |sorted[k..]| && sorted[k..][i] == x;
      var j :| 0 <= j < k && sorted[..k][j] == y;
      assert sorted[j] == y && sorted[k + i] == x;
    }
  }

  /** The bound on the entries a top-N list leaves out, read as the
      column each measure names. */
  lemma FieldBound(m: Measure, rest: multiset<FunctionStats>, r: seq<FunctionStats>)
    requires forall x, y :: x in rest && y in r ==> Key(m, x) <= Key(m, y)
    ensures m == ByExclusiveTime ==> forall x, y :: x in rest && y in r ==> x.exclusive.time <= y.exclusive.time
    ensures m == ByCallCount ==> forall x, y :: x in rest && y in r ==> x.callCount <= y.callCount
    ensures m == ByInclusiveMemory ==> forall x, y :: x in rest && y in r ==> x.inclusive.memory <= y.inclusive.memory
    ensures m == ByExclusiveCpu ==> forall x, y :: x in rest && y in r ==> x.exclusive.cpu <= y.exclusive.cpu
  {
  }

  /** getSlowestFunctions: the entries with the largest exclusive wall time
      first, cut by array_slice($stats, 0, $limit). */
  function SlowestFunctions(t: StatsTable, limit: int): (r: seq<FunctionStats>)
    requires t.Valid()
    ensures |r| == SliceLength(|t.entries|, limit)
    ensures forall i, j :: 0 <= i < j < |r| ==> r[i].exclusive.time >= r[j].exclusive.time
    ensures multiset(r) <= multiset(Values(t))
    ensures forall x, y :: x in multiset(Values(t)) - multiset(r) && y in r ==> x.exclusive.time <= y.exclusive.time
  {
    var r := TopN(ByExclusiveTime, t, limit);
    FieldBound(ByExclusiveTime, multiset(Values(t)) - multiset(r), r);
    r
  }

  /** getMostCalledFunctions: the entries with the most calls first. */
  function MostCalledFunctions(t: StatsTable, limit: int): (r: seq<FunctionStats>)
    requires t.Valid()
    ensures |r| == SliceLength(|t.entries|, limit)
    ensures forall i, j :: 0 <= i < j < |r| ==> r[i].callCount >= r[j].callCount
    ensures multiset(r) <= multiset(Values(t))
    ensures forall x, y :: x in multiset(Values(t)) - multiset(r) && y in r ==> x.callCount <= y.callCount
  {
    var r := TopN(ByCallCount, t, limit);
    FieldBound(ByCallCount, multiset(Values(t)) - multiset(r), r);
    r
  }

  /** getMemoryHogs: the entries with the largest inclusive memory first. */
  function MemoryHogs(t: StatsTable, limit: int): (r: seq<FunctionStats>)
    requires t.Valid()
    ensures |r| == SliceLength(|t.entries|, limit)
    ensures forall i, j :: 0 <= i < j < |r| ==> r[i].inclusive.memory >= r[j].inclusive.memory
    ensures multiset(r) <= multiset(Values(t))
    ensures forall x, y :: x in multiset(Values(t)) - multiset(r) && y in r ==> x.inclusive.memory <= y.inclusive.memory
  {
    var r := TopN(ByInclusiveMemory, t, limit);
    FieldBound(ByInclusiveMemory, multiset(Values(t)) - multiset(r), r);
    r
  }

  /** getCPUIntensiveFunctions: the entries with the largest exclusive CPU
      time first. */
  function CpuIntensiveFunctions(t: StatsTable, limit: int): (r: seq<FunctionStats>)
    requires t.Valid()
    ensures |r| == SliceLength(|t.entries|, limit)
    ensures forall i, j :: 0 <= i < j < |r| ==> r[i].exclusive.cpu >= r[j].exclusive.cpu
    ensures multiset(r) <= multiset(Values(t))
    ensures forall x, y :: x in multiset(Values(t)) - multiset(r) && y in r ==> x.exclusive.cpu <= y.exclusive.cpu
  {
    var r := TopN(ByExclusiveCpu, t, limit);
    FieldBound(ByExclusiveCpu, multiset(Values(t)) - multiset(r), r);
    r
  }

  // ---------------------------------------------------------------------
  // The summary
  // ---------------------------------------------------------------------

  /** getSummaryStats: the number of functions, the summed call counts, the
      largest inclusive wall time (microseconds, and milliseconds) and the
      largest inclusive memory (bytes, and mebibytes). */
  datatype Summary = Summary(totalFunctions: nat, totalCalls: nat,
                             totalTimeUs: real, totalTimeMs: real,
                             peakMemoryBytes: real, peakMemoryMb: real)

  function TotalCalls(vs: seq<FunctionStats>): nat
  {
    if vs == [] then 0 else TotalCalls(vs[..|vs| - 1]) + vs[|vs| - 1].callCount
  }

  function Max(a: real, b: real): real
  {
    if a >= b then a else b
  }

  /** The running maximum, from 0, of one inclusive measurement. */
  function Peak(vs: seq<FunctionStats>, byMemory: bool): (p: real)
    ensures p >= 0.0
    ensures forall i :: 0 <= i < |vs| ==> p >= Gauge(vs[i], byMemory)
    ensures p == 0.0 || exists i :: 0 <= i < |vs| && p == Gauge(vs[i], byMemory)
  {
    if vs == [] then 0.0
    else
      var front := vs[..|vs| - 1];
      var p := Max(Peak(front, byMemory), Gauge(vs[|vs| - 1], byMemory));
      assert forall i :: 0 <= i < |front| ==> vs[i] == front[i];
      p
  }

  function Gauge(s: FunctionStats, byMemory: bool): real
  {
    if byMemory then s.inclusive.memory else s.inclusive.time
  }

  const MicrosPerMilli: real := 1000.0
  const BytesPerMebibyte: real := 1048576.0

  function SummaryOf(t: StatsTable): Summary
    requires t.Valid()
  {
    var vs := Values(t);
    var time := Peak(vs, false);
    var memory := Peak(vs, true);
    Summary(|t.entries|, TotalCalls(vs), time, time / MicrosPerMilli, memory, memory / BytesPerMebibyte)
  }

  /** The reported peaks are at least every entry's inclusive wall time
      and inclusive memory. */
  lemma SummaryBounds(t: StatsTable)
    requires t.Valid()
    ensures forall f :: f in t.entries ==>
              SummaryOf(t).totalTimeUs >= t.entries[f].inclusive.time
              && SummaryOf(t).peakMemoryBytes >= t.entries[f].inclusive.memory
  {
    var vs := Values(t);
    forall f | f in t.entries
      ensures Peak(vs, false) >= t.entries[f].inclusive.time
              && Peak(vs, true) >= t.entries[f].inclusive.memory
    {
      assert f in t.order;
      var k :| 0 <= k < |t.order| && t.order[k] == f;
      assert vs[k] == t.entries[f];
      assert Gauge(vs[k], false) == vs[k].inclusive.time;
      assert Gauge(vs[k], true) == vs[k].inclusive.memory;
    }
  }

  // ---------------------------------------------------------------------
  // The total call count over a pass
  // ---------------------------------------------------------------------

  lemma TotalCallsAppend(vs: seq<FunctionStats>, x: FunctionStats)
    ensures TotalCalls(vs + [x]) == TotalCalls(vs) + x.callCount
  {
    assert (vs + [x])[..|vs|] == vs;
  }

  /** Replacing one entry changes the sum by the difference of the two
      call counts. */
  lemma {:induction false} TotalCallsUpdate(vs: seq<FunctionStats>, k: nat, x: FunctionStats)
    requires k < |vs|
    ensures TotalCalls(vs[k := x]) + vs[k].callCount == TotalCalls(vs) + x.callCount
  {
    var n := |vs| - 1;
    if k == n {
      assert vs[k := x][..n] == vs[..n];
    } else {
      TotalCallsUpdate(vs[..n], k, x);
      assert vs[k := x][..n] == vs[..n][k := x];
    }
  }

  /** Creating a missing entry adds no call. */
  lemma TouchTotal(names: seq<string>, t: StatsTable, f: int)
    requires t.Valid()
    ensures Touch(names, t, f).Valid()
    ensures TotalCalls(Values(Touch(names, t, f))) == TotalCalls(Values(t))
  {
    if f !in t.entries {
      TouchValues(names, t, f);
      TotalCallsAppend(Values(t), Fresh(names, f));
    }
  }

  lemma TouchValid(names: seq<string>, t: StatsTable, f: int)
    requires t.Valid()
    ensures Touch(names, t, f).Valid()
  {
    if f !in t.entries {
      assert f !in t.order;
    }
  }

  /** A missing entry is created at the end of the table order. */
  lemma TouchValues(names: seq<string>, t: StatsTable, f: int)
    requires t.Valid() && f !in t.entries
    ensures Touch(names, t, f).Valid()
            && Values(Touch(names, t, f)) == Values(t) + [Fresh(names, f)]
  {
    TouchValid(names, t, f);
    var entries := t.entries[f := Fresh(names, f)];
    OrderListed(t);
    ValuesOfSnoc(t.order, f, entries);
    ValuesOfAgree(t.order, entries, t.entries);
  }

  /** Replacing the entry of f changes the sum by the difference of the two
      call counts. */
  lemma UpdateTotal(t: StatsTable, f: int, s: FunctionStats)
    requires t.Valid() && f in t.entries
    ensures StatsTable(t.order, t.entries[f := s]).Valid()
    ensures TotalCalls(Values(StatsTable(t.order, t.entries[f := s]))) + t.entries[f].callCount
            == TotalCalls(Values(t)) + s.callCount
  {
    var t1 := StatsTable(t.order, t.entries[f := s]);
    var k :| 0 <= k < |t.order| && t.order[k] == f;
    assert t1.Valid();
    assert Values(t1) == Values(t)[k := s] by {
      forall i | 0 <= i < |t.order| && i != k
        ensures Values(t1)[i] == Values(t)[i]
      {
        assert t.order[i] != t.order[k];
      }
    }
    TotalCallsUpdate(Values(t), k, s);
  }

  /** Counting a call adds one to the sum. */
  lemma BeginTotal(names: seq<string>, t: StatsTable, f: int)
    requires t.Valid()
    ensures Begin(names, t, f).Valid()
    ensures TotalCalls(Values(Begin(names, t, f))) == TotalCalls(Values(t)) + 1
  {
    var t1 := Touch(names, t, f);
    TouchTotal(names, t, f);
    var s := t1.entries[f];
    UpdateTotal(t1, f, s.(callCount := s.callCount + 1));
  }

  /** Charging costs leaves the sum as it is. */
  lemma CreditTotal(names: seq<string>, t: StatsTable, f: int, inclusive: Cost, exclusive: Cost)
    requires t.Valid()
    ensures Credit(names, t, f, inclusive, exclusive).Valid()
    ensures TotalCalls(Values(Credit(names, t, f, inclusive, exclusive))) == TotalCalls(Values(t))
  {
    var t1 := Touch(names, t, f);
    TouchTotal(names, t, f);
    var s := t1.entries[f];
    UpdateTotal(t1, f, s.(inclusive := s.inclusive.Plus(inclusive),
                          exclusive := s.exclusive.Plus(exclusive)));
  }

  /** A step that goes on adds one call exactly for a start event. */
  lemma StepTotal(names: seq<string>, r: Replay, e: Event)
    requires r.table.Valid()
    ensures Step(names, r, e).Table().Valid()
    ensures Step(names, r, e).Running? ==>
              TotalCalls(Values(Step(names, r, e).state.table))
              == TotalCalls(Values(r.table)) + (if e.isStart then 1 else 0)
  {
    var f := e.funcIdx;
    if e.isStart {
      BeginTotal(names, r.table, f);
    } else if r.stack == [] || r.stack[|r.stack| - 1].funcIdx != f {
      TouchTotal(names, r.table, f);
    } else {
      var top := r.stack[|r.stack| - 1];
      var spent := Elapsed(top.start, e.metrics);
      CreditTotal(names, r.table, f, spent, spent.Minus(top.children));
    }
  }

  /** A walk that goes through adds one call per start event. */
  lemma {:induction false} ReplayedTotal(names: seq<string>, start: Replay, events: seq<Event>)
    requires start.table.Valid()
    ensures Replayed(names, start, events).Table().Valid()
    ensures Replayed(names, start, events).Running? ==>
              TotalCalls(Values(Replayed(names, start, events).state.table))
              == TotalCalls(Values(start.table)) + Starts(events)
  {
    if events != [] {
      var front := events[..|events| - 1];
      ReplayedTotal(names, start, front);
      match Replayed(names, start, front)
      case Halted(_, _) =>
      case Running(r) =>
        StepTotal(names, r, events[|events| - 1]);
    }
  }

  /** A pass that goes through adds one call per start event. */
  lemma RunTotal(names: seq<string>, t: StatsTable, events: seq<Event>)
    requires t.Valid()
    ensures Run(names, t, events).Table().Valid()
    ensures Run(names, t, events).Running? ==>
              TotalCalls(Values(Run(names, t, events).state.table))
              == TotalCalls(Values(t)) + Starts(events)
  {
    ReplayedTotal(names, Replay(t, []), events);
  }

  /** The summary of a profile parsed into an empty table counts one
      function per index its events mention and one call per start event. */
  lemma ParsedSummary(names: seq<string>, events: seq<Event>)
    requires Run(names, EmptyTable, events).Running?
    ensures Run(names, EmptyTable, events).state.table.Valid()
    ensures var s := SummaryOf(Run(names, EmptyTable, events).state.table);
            s.totalFunctions == |Ids(events)| && s.totalCalls == Starts(events)
  {
    RunTable(names, EmptyTable, events);
    RunTotal(names, EmptyTable, events);
    assert Values(EmptyTable) == [];
  }
}
