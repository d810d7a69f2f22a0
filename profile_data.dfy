/** The decoding half of the SPX profile parser: which metrics are active,
    how the text of a profile splits into the [functions] and [events]
    sections, and how one event line becomes an event record. */
module ProfileData {
  import opened PhpBuiltins

  datatype Option<+T> = None | Some(value: T)

  /** The metric values an event carries, keyed by metric name
      ("wt" wall time, "ct" CPU time, "mu" memory usage, ...). */
  type MetricValues = map<string, real>

  /** One record of the [events] section: a function index, whether the
      function is entered (true) or left (false), and the metric readings. */
  datatype Event = Event(funcIdx: int, isStart: bool, metrics: MetricValues)

  /** The exceptions parsing a profile throws: the file cannot be opened,
      or the statistics pass finds an end event with an empty stack, an end
      event for another function than the one on top, or frames left over. */
  datatype ParseError =
    | CannotOpen
    | StackUnderflow(funcIdx: int)
    | StackMismatch(expected: int, got: int)
    | IncompleteProfile

  predicate Distinct<T(==)>(s: seq<T>)
  {
    forall i, j :: 0 <= i < j < |s| ==> s[i] != s[j]
  }

  // ---------------------------------------------------------------------
  // Active metrics
  // ---------------------------------------------------------------------

  /** array_keys(array_filter($enabledMetrics)): the metric names whose
      enabled flag is truthy, in the order the metadata lists them. */
  function ActiveMetrics(enabled: seq<(string, Flag)>): (keys: seq<string>)
    ensures |keys| <= |enabled|
    ensures forall k :: k in keys <==> exists f :: (k, f) in enabled && Truthy(f)
  {
    if enabled == [] then []
    else
      var rest := ActiveMetrics(enabled[1..]);
      assert forall p :: p in enabled <==> p == enabled[0] || p in enabled[1..];
      if Truthy(enabled[0].1) then [enabled[0].0] + rest else rest
  }

  /** The filter keeps the original order: the active keys of a
      concatenation are those of each part, one after the other. */
  lemma {:induction false} ActiveMetricsAppend(a: seq<(string, Flag)>, b: seq<(string, Flag)>)
    ensures ActiveMetrics(a + b) == ActiveMetrics(a) + ActiveMetrics(b)
  {
    if a == [] {
      assert a + b == b;
    } else {
      assert (a + b)[0] == a[0];
      assert (a + b)[1..] == a[1..] + b;
      ActiveMetricsAppend(a[1..], b);
      var head := if Truthy(a[0].1) then [a[0].0] else [];
      assert ActiveMetrics(a) == head + ActiveMetrics(a[1..]);
      assert ActiveMetrics(a + b) == head + ActiveMetrics(a[1..] + b);
      assert head + (ActiveMetrics(a[1..]) + ActiveMetrics(b))
          == (head + ActiveMetrics(a[1..])) + ActiveMetrics(b);
    }
  }

  /** Keys of a PHP array are unique, and so are the active keys. */
  lemma {:induction false} ActiveMetricsDistinct(enabled: seq<(string, Flag)>)
    requires forall i, j :: 0 <= i < j < |enabled| ==> enabled[i].0 != enabled[j].0
    ensures Distinct(ActiveMetrics(enabled))
  {
    if enabled != [] {
      var tail := enabled[1..];
      ActiveMetricsDistinct(tail);
      var rest := ActiveMetrics(tail);
      if Truthy(enabled[0].1) {
        var keys := [enabled[0].0] + rest;
        assert enabled[0].0 !in rest;
        forall i, j | 0 <= i < j < |keys| ensures keys[i] != keys[j] {
          assert keys[j] == rest[j - 1] && rest[j - 1] in rest;
          if i > 0 {
            assert keys[i] == rest[i - 1];
          }
        }
      }
    }
  }

  // ---------------------------------------------------------------------
  // Sections
  // ---------------------------------------------------------------------

  /** The section the reader is in: none before the first header. */
  datatype Section = NoSection | FunctionsSection | EventsSection

  /** What the reader keeps of a profile: the function names and the
      event lines, each in file order. */
  datatype Sections = Sections(names: seq<string>, eventLines: seq<string>)

  const EventsHeader: string := "[events]"
  const FunctionsHeader: string := "[functions]"

  predicate IsHeader(line: string)
  {
    line == EventsHeader || line == FunctionsHeader
  }

  /** A line the reader may keep: trimmed, not a header, not empty(). */
  predicate IsKept(line: string)
  {
    !IsHeader(line) && !IsEmptyString(line) && !IsTrimmable(line[0]) && !IsTrimmable(line[|line| - 1])
  }

  /** What one raw line is to the reader, once trimmed. */
  datatype LineKind = SwitchTo(section: Section) | Skipped | Content(text: string)

  /** A trimmed line equal to a header switches the section, one that is
      empty() is skipped, and anything else is content. */
  function Classify(raw: string): LineKind
  {
    var line := Trim(raw);
    if line == EventsHeader then SwitchTo(EventsSection)
    else if line == FunctionsHeader then SwitchTo(FunctionsSection)
    else if IsEmptyString(line) then Skipped
    else Content(line)
  }

  function ClassifyAll(lines: seq<string>): (kinds: seq<LineKind>)
    ensures |kinds| == |lines|
  {
    if lines == [] then [] else [Classify(lines[0])] + ClassifyAll(lines[1..])
  }

  /** The reading loop over the remaining lines, as classified, starting in
      `section`: a header switches the section and is not kept; an empty()
      line is skipped; any other line is a function name in the functions
      section, an event line in the events section, and dropped before the
      first header. */
  function Read(section: Section, kinds: seq<LineKind>): Sections
    decreases |kinds|
  {
    if kinds == [] then Sections([], [])
    else
      match kinds[0]
      case SwitchTo(next) => Read(next, kinds[1..])
      case Skipped => Read(section, kinds[1..])
      case Content(line) =>
        var rest := Read(section, kinds[1..]);
        match section
        case FunctionsSection => Sections([line] + rest.names, rest.eventLines)
        case EventsSection => Sections(rest.names, [line] + rest.eventLines)
        case NoSection => rest
  }

  /** What the reader keeps of the lines of a profile. */
  function SplitSections(lines: seq<string>): Sections
  {
    Read(NoSection, ClassifyAll(lines))
  }

  /** The section in force after reading `kinds` from `section`. */
  function SectionAfter(section: Section, kinds: seq<LineKind>): Section
    decreases |kinds|
  {
    if kinds == [] then section
    else
      match kinds[0]
      case SwitchTo(next) => SectionAfter(next, kinds[1..])
      case _ => SectionAfter(section, kinds[1..])
  }

  /** Headers and empty() lines are never kept, and what is kept is trimmed. */
  lemma {:induction false} SplitSectionsKept(section: Section, lines: seq<string>)
    ensures forall l :: l in Read(section, ClassifyAll(lines)).names ==> IsKept(l)
    ensures forall l :: l in Read(section, ClassifyAll(lines)).eventLines ==> IsKept(l)
    decreases |lines|
  {
    if lines != [] {
      var k := Classify(lines[0]);
      ClassifyKept(lines[0]);
      var kinds := ClassifyAll(lines);
      assert kinds[0] == k && kinds[1..] == ClassifyAll(lines[1..]);
      match k
      case SwitchTo(next) =>
        SplitSectionsKept(next, lines[1..]);
      case Skipped =>
        SplitSectionsKept(section, lines[1..]);
      case Content(line) =>
        SplitSectionsKept(section, lines[1..]);
    }
  }

  /** A content line is trimmed, not a header and not empty(). */
  lemma ClassifyKept(raw: string)
    ensures Classify(raw).Content? ==> IsKept(Classify(raw).text)
  {
  }

  /** The trimmed lines of a section body that are not empty(), in order:
      the reference for what a section contributes. */
  function KeptLines(body: seq<string>): seq<string>
  {
    if body == [] then []
    else if IsEmptyString(Trim(body[0])) then KeptLines(body[1..])
    else [Trim(body[0])] + KeptLines(body[1..])
  }

  predicate NoHeaders(lines: seq<string>)
  {
    forall k :: 0 <= k < |lines| ==> !IsHeader(Trim(lines[k]))
  }

  /** Reading a concatenation reads the first part, then the second part
      from the section the first part ended in. */
  lemma {:induction false} ReadAppend(section: Section, a: seq<LineKind>, b: seq<LineKind>)
    ensures var ra := Read(section, a);
            var rb := Read(SectionAfter(section, a), b);
            Read(section, a + b) == Sections(ra.names + rb.names, ra.eventLines + rb.eventLines)
    decreases |a|
  {
    if a == [] {
      assert a + b == b;
    } else {
      assert (a + b)[0] == a[0];
      assert (a + b)[1..] == a[1..] + b;
      var next := if a[0].SwitchTo? then a[0].section else section;
      ReadAppend(next, a[1..], b);
      var ra' := Read(next, a[1..]);
      var rb := Read(SectionAfter(next, a[1..]), b);
      if a[0].Content? {
        var line := a[0].text;
        assert [line] + (ra'.names + rb.names) == ([line] + ra'.names) + rb.names;
        assert [line] + (ra'.eventLines + rb.eventLines) == ([line] + ra'.eventLines) + rb.eventLines;
      }
    }
  }

  lemma {:induction false} ClassifyAllAppend(a: seq<string>, b: seq<string>)
    ensures ClassifyAll(a + b) == ClassifyAll(a) + ClassifyAll(b)
  {
    if a == [] {
      assert a + b == b;
    } else {
      assert (a + b)[0] == a[0];
      assert (a + b)[1..] == a[1..] + b;
      ClassifyAllAppend(a[1..], b);
    }
  }

  /** The two header lines as the reader sees them. */
  lemma ClassifyHeaders()
    ensures Classify(FunctionsHeader) == SwitchTo(FunctionsSection)
    ensures Classify(EventsHeader) == SwitchTo(EventsSection)
  {
    TrimKeepsTrimmed(FunctionsHeader);
    TrimKeepsTrimmed(EventsHeader);
  }

  /** The body of a section: with no header among them, lines read in the
      functions section are exactly its kept lines as names, and lines read
      in the events section are exactly its kept lines as event lines; the
      section does not change. So function name i is the i-th non-empty line
      of the functions section. */
  lemma {:induction false} SectionBody(body: seq<string>)
    requires NoHeaders(body)
    ensures Read(FunctionsSection, ClassifyAll(body)) == Sections(KeptLines(body), [])
    ensures Read(EventsSection, ClassifyAll(body)) == Sections([], KeptLines(body))
    ensures SectionAfter(FunctionsSection, ClassifyAll(body)) == FunctionsSection
    ensures SectionAfter(EventsSection, ClassifyAll(body)) == EventsSection
  {
    if body != [] {
      assert NoHeaders(body[1..]) by {
        forall k | 0 <= k < |body[1..]| ensures !IsHeader(Trim(body[1..][k])) {
          assert body[1..][k] == body[k + 1];
        }
      }
      assert !IsHeader(Trim(body[0]));
      assert ClassifyAll(body)[1..] == ClassifyAll(body[1..]);
      SectionBody(body[1..]);
    }
  }

  /** Lines before the first header are dropped: they contribute nothing
      and leave the reader outside any section. */
  lemma {:induction false} BeforeFirstHeader(pre: seq<string>)
    requires NoHeaders(pre)
    ensures Read(NoSection, ClassifyAll(pre)) == Sections([], [])
    ensures SectionAfter(NoSection, ClassifyAll(pre)) == NoSection
  {
    if pre != [] {
      assert NoHeaders(pre[1..]) by {
        forall k | 0 <= k < |pre[1..]| ensures !IsHeader(Trim(pre[1..][k])) {
          assert pre[1..][k] == pre[k + 1];
        }
      }
      assert !IsHeader(Trim(pre[0]));
      assert ClassifyAll(pre)[1..] == ClassifyAll(pre[1..]);
      BeforeFirstHeader(pre[1..]);
    }
  }

  lemma ClassifyLayout(pre: seq<string>, functionsBody: seq<string>, eventsBody: seq<string>)
    ensures ClassifyAll(pre + [FunctionsHeader] + functionsBody + [EventsHeader] + eventsBody)
         == ClassifyAll(pre) + ([SwitchTo(FunctionsSection)]
              + (ClassifyAll(functionsBody) + ([SwitchTo(EventsSection)] + ClassifyAll(eventsBody))))
  {
    var P, F, E := ClassifyAll(pre), ClassifyAll(functionsBody), ClassifyAll(eventsBody);
    var FH, EH := [SwitchTo(FunctionsSection)], [SwitchTo(EventsSection)];
    ClassifyHeaders();
    assert ClassifyAll([FunctionsHeader]) == FH;
    assert ClassifyAll([EventsHeader]) == EH;
    ClassifyAllAppend(pre + [FunctionsHeader] + functionsBody + [EventsHeader], eventsBody);
    ClassifyAllAppend(pre + [FunctionsHeader] + functionsBody, [EventsHeader]);
    ClassifyAllAppend(pre + [FunctionsHeader], functionsBody);
    ClassifyAllAppend(pre, [FunctionsHeader]);
    calc {
      ClassifyAll(pre + [FunctionsHeader] + functionsBody + [EventsHeader] + eventsBody);
      ClassifyAll(pre + [FunctionsHeader] + functionsBody + [EventsHeader]) + E;
      (ClassifyAll(pre + [FunctionsHeader] + functionsBody) + EH) + E;
      ((ClassifyAll(pre + [FunctionsHeader]) + F) + EH) + E;
      (((P + FH) + F) + EH) + E;
      { Associative((P + FH) + F, EH, E); }
      ((P + FH) + F) + (EH + E);
      { Associative(P + FH, F, EH + E); }
      (P + FH) + (F + (EH + E));
      { Associative(P, FH, F + (EH + E)); }
      P + (FH + (F + (EH + E)));
    }
  }

  lemma Associative<T>(a: seq<T>, b: seq<T>, c: seq<T>)
    ensures (a + b) + c == a + (b + c)
  {
  }

  /** The usual layout of a profile: a functions section followed by an
      events section, whatever comes before the first header. */
  lemma UsualLayout(pre: seq<string>, functionsBody: seq<string>, eventsBody: seq<string>)
    requires NoHeaders(pre) && NoHeaders(functionsBody) && NoHeaders(eventsBody)
    ensures SplitSections(pre + [FunctionsHeader] + functionsBody + [EventsHeader] + eventsBody)
         == Sections(KeptLines(functionsBody), KeptLines(eventsBody))
  {
    var p, f, e := ClassifyAll(pre), ClassifyAll(functionsBody), ClassifyAll(eventsBody);
    var fh, eh := [SwitchTo(FunctionsSection)], [SwitchTo(EventsSection)];
    ClassifyLayout(pre, functionsBody, eventsBody);
    var kf, ke := KeptLines(functionsBody), KeptLines(eventsBody);
    SectionBody(functionsBody);
    SectionBody(eventsBody);
    BeforeFirstHeader(pre);
    assert Read(FunctionsSection, eh + e) == Sections([], ke) by {
      assert (eh + e)[1..] == e;
    }
    assert Read(FunctionsSection, f + (eh + e)) == Sections(kf, ke) by {
      ReadAppend(FunctionsSection, f, eh + e);
      assert kf + [] == kf && [] + ke == ke;
    }
    assert Read(NoSection, fh + (f + (eh + e))) == Sections(kf, ke) by {
      assert (fh + (f + (eh + e)))[1..] == f + (eh + e);
    }
    ReadAppend(NoSection, p, fh + (f + (eh + e)));
    assert [] + kf == kf && [] + ke == ke;
  }

  // ---------------------------------------------------------------------
  // Event lines
  // ---------------------------------------------------------------------

  /** The metric map built from the first n value tokens: token j goes under
      key j, a later assignment to the same key replacing an earlier one. */
  function AssignMetrics(keys: seq<string>, values: seq<real>, n: nat): MetricValues
    requires n <= |keys| && n <= |values|
  {
    if n == 0 then map[]
    else AssignMetrics(keys, values, n - 1)[keys[n - 1] := values[n - 1]]
  }

  /** The (float) cast of each value token. */
  function CastAll(tokens: seq<string>): (r: seq<real>)
    ensures |r| == |tokens|
  {
    if tokens == [] then [] else [FloatCast(tokens[0])] + CastAll(tokens[1..])
  }

  /** The j-th cast value is the cast of the j-th token. */
  lemma {:induction false} CastAt(tokens: seq<string>, j: nat)
    requires j < |tokens|
    ensures CastAll(tokens)[j] == FloatCast(tokens[j])
  {
    if j > 0 {
      CastAt(tokens[1..], j - 1);
    }
  }

  /** The value tokens of an event line: everything after the first two. */
  function ValueTokens(parts: seq<string>): seq<string>
  {
    if |parts| >= 2 then parts[2..] else []
  }

  function Min(a: int, b: int): int
  {
    if a <= b then a else b
  }

  /** parseEvent: split the line on single spaces; the first token is the
      function index, the event is a start exactly when the second token is
      "1", and the value tokens are stored under the active metric keys in
      order, extra tokens being ignored. A line with fewer tokens is not an
      error: the missing start token reads as an end, missing values as unset. */
  function DecodeEvent(keys: seq<string>, line: string): Event
  {
    var parts := Explode(line);
    var values := CastAll(ValueTokens(parts));
    Event(IntCast(parts[0]), |parts| >= 2 && parts[1] == "1",
          AssignMetrics(keys, values, Min(|keys|, |values|)))
  }

  /** Each event line of the events section decoded, in order. */
  function DecodeAll(keys: seq<string>, lines: seq<string>): (r: seq<Event>)
    ensures |r| == |lines|
    ensures forall i :: 0 <= i < |lines| ==> r[i] == DecodeEvent(keys, lines[i])
  {
    if lines == [] then [] else [DecodeEvent(keys, lines[0])] + DecodeAll(keys, lines[1..])
  }

  lemma {:induction false} DecodeAllAppend(keys: seq<string>, a: seq<string>, b: seq<string>)
    ensures DecodeAll(keys, a + b) == DecodeAll(keys, a) + DecodeAll(keys, b)
  {
    var whole := DecodeAll(keys, a + b);
    var left := DecodeAll(keys, a);
    var right := DecodeAll(keys, b);
    forall i | 0 <= i < |whole| ensures whole[i] == (left + right)[i] {
      if i < |a| {
        assert (a + b)[i] == a[i];
      } else {
        assert (a + b)[i] == b[i - |a|];
      }
    }
  }

  /** With distinct keys, value token j is stored under key j, for every j
      below both counts. */
  lemma {:induction false} AssignMetricsValues(keys: seq<string>, values: seq<real>, n: nat)
    requires n <= |keys| && n <= |values| && Distinct(keys)
    ensures forall j :: 0 <= j < n ==>
              (keys[j] in AssignMetrics(keys, values, n)
               && AssignMetrics(keys, values, n)[keys[j]] == values[j])
  {
    if n > 0 {
      AssignMetricsValues(keys, values, n - 1);
      var before := AssignMetrics(keys, values, n - 1);
      var after := before[keys[n - 1] := values[n - 1]];
      assert AssignMetrics(keys, values, n) == after;
      forall j | 0 <= j < n ensures keys[j] in after && after[keys[j]] == values[j] {
        if j < n - 1 {
          assert keys[j] != keys[n - 1];
          assert after[keys[j]] == before[keys[j]];
        }
      }
    }
  }

  /** Only active keys within both counts are stored. */
  lemma {:induction false} AssignMetricsKeys(keys: seq<string>, values: seq<real>, n: nat)
    requires n <= |keys| && n <= |values|
    ensures forall k :: k in AssignMetrics(keys, values, n) ==> k in keys[..n]
  {
    if n > 0 {
      AssignMetricsKeys(keys, values, n - 1);
      assert keys[..n] == keys[..n - 1] + [keys[n - 1]];
    }
  }

  /** The rendering of an event in the profile's text format: index,
      start flag ("1" or "0") and metric values separated by single spaces. */
  function EncodeEvent(funcIdx: nat, isStart: bool, values: seq<nat>): string
  {
    Implode([Show(funcIdx), if isStart then "1" else "0"] + ShowAll(values))
  }

  function ShowAll(values: seq<nat>): (r: seq<string>)
    ensures |r| == |values|
    ensures forall j :: 0 <= j < |values| ==> r[j] == Show(values[j])
  {
    if values == [] then [] else [Show(values[0])] + ShowAll(values[1..])
  }

  /** Decoding an encoded event gives the event back: its index, its start
      flag, and value j under active key j for every j both lists reach. */
  lemma DecodeEncoded(keys: seq<string>, funcIdx: nat, isStart: bool, values: seq<nat>)
    requires Distinct(keys)
    ensures var e := DecodeEvent(keys, EncodeEvent(funcIdx, isStart, values));
            && e.funcIdx == funcIdx
            && e.isStart == isStart
            && (forall j :: 0 <= j < |keys| && j < |values| ==>
                  keys[j] in e.metrics && e.metrics[keys[j]] == values[j] as real)
            && (forall k :: k in e.metrics ==> k in keys[..Min(|keys|, |values|)])
  {
    var parts := [Show(funcIdx), if isStart then "1" else "0"] + ShowAll(values);
    EncodedParts(funcIdx, isStart, values);
    assert ValueTokens(parts) == ShowAll(values);
    CastShow(funcIdx);
    var reals := CastAll(ShowAll(values));
    CastShowAll(values);
    var n := Min(|keys|, |values|);
    AssignMetricsValues(keys, reals, n);
    AssignMetricsKeys(keys, reals, n);
  }

  lemma EncodedParts(funcIdx: nat, isStart: bool, values: seq<nat>)
    ensures Explode(EncodeEvent(funcIdx, isStart, values))
         == [Show(funcIdx), if isStart then "1" else "0"] + ShowAll(values)
  {
    var parts := [Show(funcIdx), if isStart then "1" else "0"] + ShowAll(values);
    forall p | p in parts ensures ' ' !in p {
      var i :| 0 <= i < |parts| && parts[i] == p;
      if i >= 2 {
        assert p == Show(values[i - 2]);
      }
    }
    ExplodeImplode(parts);
  }

  lemma CastShowAll(values: seq<nat>)
    ensures forall j :: 0 <= j < |values| ==> CastAll(ShowAll(values))[j] == values[j] as real
  {
    forall j | 0 <= j < |values| ensures CastAll(ShowAll(values))[j] == values[j] as real {
      CastAt(ShowAll(values), j);
      CastShow(values[j]);
    }
  }
}
